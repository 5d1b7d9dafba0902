/** The browser's own check of an `<input type="email">`: before a form is
    submitted, a non-empty value that is not a valid e-mail address in the
    sense of the HTML standard (section 4.10.5.1.5, "E-mail state") blocks
    the submission, so the page's submit handler never runs. A valid
    address is a local part of `atext` characters and dots, an `@`, and a
    domain of dot-separated labels; a label is one to sixty-three letters,
    digits and hyphens that starts and ends with a letter or digit. */
module HtmlEmail {
  import opened FormRules

  /** A letter or digit (`let-dig`). */
  predicate IsLetDig(c: char)
  {
    IsUpper(c) || IsLower(c) || IsDigit(c)
  }

  /** A character the local part may hold: `atext` or `.`. */
  predicate IsLocalChar(c: char)
  {
    IsLetDig(c) || c in ".!#$%&'*+/=?^_`{|}~-"
  }

  /** One domain label. */
  predicate IsLabel(l: string)
  {
    1 <= |l| <= 63 && IsLetDig(l[0]) && IsLetDig(l[|l| - 1]) &&
    forall i :: 0 <= i < |l| ==> IsLetDig(l[i]) || l[i] == '-'
  }

  /** The pieces of `s` between its dots, left to right. */
  function SplitAtDots(s: string): (parts: seq<string>)
    ensures |parts| >= 1
    ensures forall k :: 0 <= k < |parts| ==> '.' !in parts[k]
    decreases |s|
  {
    var i := FirstIndex(s, '.');
    if i == -1 then [s]
    else
      assert forall k :: 0 <= k < i ==> s[..i][k] == s[k];
      [s[..i]] + SplitAtDots(s[i + 1..])
  }

  /** The pieces joined back with dots. */
  function JoinWithDots(parts: seq<string>): string
    requires |parts| >= 1
  {
    if |parts| == 1 then parts[0] else parts[0] + "." + JoinWithDots(parts[1..])
  }

  /** Splitting at the dots loses nothing. */
  lemma {:induction false} JoinSplit(s: string)
    ensures JoinWithDots(SplitAtDots(s)) == s
    decreases |s|
  {
    var i := FirstIndex(s, '.');
    if i != -1 {
      var head, tail := s[..i], s[i + 1..];
      var rest := SplitAtDots(tail);
      JoinSplit(tail);
      assert JoinWithDots([head] + rest) == head + "." + tail by {
        assert ([head] + rest)[1..] == rest;
      }
      assert s == head + "." + tail by {
        assert s[i] == '.';
      }
    }
  }

  /** Pieces without dots are found again by splitting their join. */
  lemma {:induction false} SplitJoin(parts: seq<string>)
    requires |parts| >= 1
    requires forall k :: 0 <= k < |parts| ==> '.' !in parts[k]
    ensures SplitAtDots(JoinWithDots(parts)) == parts
  {
    var s := JoinWithDots(parts);
    if |parts| == 1 {
      assert FirstIndex(s, '.') == -1;
    } else {
      var p := parts[0];
      var rest := JoinWithDots(parts[1..]);
      assert s == p + "." + rest;
      assert s[|p|] == '.';
      assert forall k :: 0 <= k < |p| ==> s[k] == p[k];
      assert FirstIndex(s, '.') == |p|;
      assert s[..|p|] == p;
      assert s[|p| + 1..] == rest;
      SplitJoin(parts[1..]);
    }
  }

  /** The domain, decided by splitting at its dots. */
  predicate IsDomain(s: string)
  {
    var parts := SplitAtDots(s);
    forall k :: 0 <= k < |parts| ==> IsLabel(parts[k])
  }

  /** `s` is the labels `parts` joined with dots. */
  predicate IsLabelsJoined(s: string, parts: seq<string>)
  {
    |parts| >= 1 && (forall k :: 0 <= k < |parts| ==> IsLabel(parts[k])) && JoinWithDots(parts) == s
  }

  /** The standard's reading of a domain: some labels joined with dots. */
  ghost predicate DomainGrammar(s: string)
  {
    exists parts :: IsLabelsJoined(s, parts)
  }

  /** Deciding by splitting agrees with the standard's reading. */
  lemma DomainIff(s: string)
    ensures IsDomain(s) <==> DomainGrammar(s)
  {
    if IsDomain(s) {
      JoinSplit(s);
      assert IsLabelsJoined(s, SplitAtDots(s));
    }
    if exists parts :: IsLabelsJoined(s, parts) {
      var parts :| IsLabelsJoined(s, parts);
      forall k | 0 <= k < |parts|
        ensures '.' !in parts[k]
      {
        assert IsLabel(parts[k]);
      }
      SplitJoin(parts);
    }
  }

  /** The first `a` characters of `s` may form a local part. */
  predicate LocalPartBefore(s: string, a: int)
    requires 0 <= a <= |s|
  {
    forall k :: 0 <= k < a ==> IsLocalChar(s[k])
  }

  /** A valid e-mail address: everything before the first `@` is a
      non-empty local part, everything after it a domain. The local part
      cannot hold an `@`, so the first one is the only place to split. */
  predicate HtmlEmailValid(s: string)
  {
    var a := FirstIndex(s, '@');
    1 <= a && LocalPartBefore(s, a) && IsDomain(s[a + 1..])
  }

  /** What the standard's grammar means: some `@` splits the text into a
      non-empty local part and a domain of labels joined with dots. */
  ghost predicate HtmlEmailGrammar(s: string)
  {
    exists a :: 1 <= a < |s| && s[a] == '@' && LocalPartBefore(s, a) && DomainGrammar(s[a + 1..])
  }

  /** An `@` after a local part is the first `@`. */
  lemma FirstAtAfterLocalPart(s: string, a: int)
    requires 1 <= a < |s| && s[a] == '@' && LocalPartBefore(s, a)
    ensures FirstIndex(s, '@') == a
  {
    forall k | 0 <= k < a
      ensures s[k] != '@'
    {
      assert IsLocalChar(s[k]);
    }
  }

  /** The left-to-right decision agrees with the grammar. */
  lemma HtmlEmailValidIff(s: string)
    ensures HtmlEmailValid(s) <==> HtmlEmailGrammar(s)
  {
    var a := FirstIndex(s, '@');
    if HtmlEmailValid(s) {
      DomainIff(s[a + 1..]);
      assert 1 <= a < |s| && s[a] == '@' && LocalPartBefore(s, a) && DomainGrammar(s[a + 1..]);
    }
    if HtmlEmailGrammar(s) {
      var a' :| 1 <= a' < |s| && s[a'] == '@' && LocalPartBefore(s, a') && DomainGrammar(s[a' + 1..]);
      FirstAtAfterLocalPart(s, a');
      DomainIff(s[a + 1..]);
    }
  }

  /** The first `c` is at `i` when `s[i]` is one and none comes before. */
  lemma FirstIndexAt(s: string, c: char, i: nat)
    requires i < |s| && s[i] == c && forall k :: 0 <= k < i ==> s[k] != c
    ensures FirstIndex(s, c) == i
  {
  }

  /** The shape every domain has: it starts and ends with a letter or
      digit, and each dot sits between two letters or digits. So no label
      is empty and none starts or ends with a hyphen. */
  lemma {:induction false} DomainShape(s: string)
    requires IsDomain(s)
    ensures |s| >= 1 && IsLetDig(s[0]) && IsLetDig(s[|s| - 1])
    ensures forall j :: 0 <= j < |s| && s[j] == '.' ==> 0 < j < |s| - 1 && IsLetDig(s[j - 1]) && IsLetDig(s[j + 1])
    decreases |s|
  {
    var i := FirstIndex(s, '.');
    var parts := SplitAtDots(s);
    assert IsLabel(parts[0]);
    if i != -1 {
      var head, tail := s[..i], s[i + 1..];
      assert parts == [head] + SplitAtDots(tail);
      assert IsDomain(tail) by {
        forall k | 0 <= k < |SplitAtDots(tail)|
          ensures IsLabel(SplitAtDots(tail)[k])
        {
          assert SplitAtDots(tail)[k] == parts[k + 1];
        }
      }
      DomainShape(tail);
      forall j | 0 <= j < |s| && s[j] == '.'
        ensures 0 < j < |s| - 1 && IsLetDig(s[j - 1]) && IsLetDig(s[j + 1])
      {
        if j == i {
          assert s[j - 1] == head[|head| - 1];
          assert s[j + 1] == tail[0];
        } else {
          assert tail[j - i - 1] == s[j];
        }
      }
      assert s[|s| - 1] == tail[|tail| - 1];
    }
  }

  /** `a@b..cd` has an empty label between two dots. */
  lemma DoubleDotRefused()
    ensures !HtmlEmailValid("a@b..cd")
  {
    FirstIndexAt("a@b..cd", '@', 1);
    var d := "a@b..cd"[2..];
    assert d[1] == '.' && d[2] == '.';
    if IsDomain(d) {
      DomainShape(d);
    }
  }

  /** `a@-x.cd` has a label that starts with a hyphen. */
  lemma LeadingHyphenRefused()
    ensures !HtmlEmailValid("a@-x.cd")
  {
    FirstIndexAt("a@-x.cd", '@', 1);
    var d := "a@-x.cd"[2..];
    assert d[0] == '-';
    if IsDomain(d) {
      DomainShape(d);
    }
  }

  /** Inputs the form's pattern lets through but the browser refuses: an
      empty label between two dots, and a label that starts with a hyphen.
      For these the page's submit handler never runs. */
  lemma PatternLetsThroughBrowserRefuses()
    ensures EmailRegexMatches("a@b..cd") && !HtmlEmailValid("a@b..cd")
    ensures EmailRegexMatches("a@-x.cd") && !HtmlEmailValid("a@-x.cd")
  {
    assert EmailSplitAt("a@b..cd", 1, 4);
    assert EmailSplitAt("a@-x.cd", 1, 4);
    DoubleDotRefused();
    LeadingHyphenRefused();
  }

  /** And the other way: the browser accepts a domain without a dot, which
      the form's pattern refuses, so validation reports it. */
  lemma DotlessDomainPassesBrowserOnly()
    ensures HtmlEmailValid("a@b") && !EmailRegexMatches("a@b")
  {
    var s := "a@b";
    FirstIndexAt(s, '@', 1);
    assert s[2..] == "b";
    assert SplitAtDots("b") == ["b"];
    EmailMatchesIff(s);
  }
}
