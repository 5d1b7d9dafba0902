/** Frame construction for the card reader: `calculateChecksum` and
    `createAPDU` of `src/services/nfc.service.js`. */
module Apdu {
  import opened Bytes

  /** The four fixed bytes every frame starts with. */
  const ApduHeader: seq<byte> := [0xFF, 0xCA, 0x00, 0x00]

  /** `calculateChecksum(data)`: `data.reduce((acc, val) => acc ^ val, 0)`,
      folding from the left. */
  function CalculateChecksum(data: seq<byte>): byte
  {
    if data == [] then 0 else XorByte(CalculateChecksum(data[..|data| - 1]), data[|data| - 1])
  }

  /** The fold starts from 0, so no bytes check to 0 and a single byte to
      itself. */
  lemma ChecksumBase(b: byte)
    ensures CalculateChecksum([]) == 0
    ensures CalculateChecksum([b]) == b
  {
    assert [b][..0] == [];
  }

  /** The checksum of a concatenation is the exclusive or of the checksums of
      its parts. */
  lemma {:induction false} ChecksumAppend(s: seq<byte>, t: seq<byte>)
    ensures CalculateChecksum(s + t) == Xor(CalculateChecksum(s), CalculateChecksum(t))
  {
    if t == [] {
      assert s + t == s;
    } else {
      var t' := t[..|t| - 1];
      var x := t[|t| - 1];
      assert (s + t)[..|s + t| - 1] == s + t';
      ChecksumAppend(s, t');
      XorAssociates(CalculateChecksum(s), CalculateChecksum(t'), x);
    }
  }

  /** `createAPDU(command, data = [])`: the header, the payload length, the
      payload and the checksum of everything before it. The `command`
      argument is never read. The length is written into a `Uint8Array`, so
      only its low eight bits reach the frame. */
  function CreateApdu(command: seq<int>, data: seq<byte> := []): (frame: seq<byte>)
    ensures |frame| == |data| + 6
    ensures frame[..4] == ApduHeader && frame[4] == |data| % 256 && frame[5..|data| + 5] == data
    ensures frame[|data| + 5] == CalculateChecksum(frame[..|data| + 5])
    ensures CalculateChecksum(frame) == 0
  {
    var apdu := ApduHeader + [|data| % 256] + data;
    var checksum := CalculateChecksum(apdu);
    var frame := apdu + [checksum];
    assert frame[..|frame| - 1] == apdu;
    XorSelf(checksum);
    frame
  }

  /** A frame with no payload is the same six bytes whatever the command:
      `FF CA 00 00 00 35`. */
  lemma EmptyFrame(command: seq<int>)
    ensures CreateApdu(command) == [0xFF, 0xCA, 0x00, 0x00, 0x00, 0x35]
  {
    var apdu: seq<byte> := [0xFF, 0xCA, 0x00, 0x00, 0x00];
    assert ApduHeader + [0 % 256] + [] == apdu;
    EmptyFrameChecksum();
  }

  /** The checksum of the five bytes `FF CA 00 00 00` is `0x35`. */
  lemma EmptyFrameChecksum()
    ensures CalculateChecksum([0xFF, 0xCA, 0x00, 0x00, 0x00]) == 0x35
  {
    var apdu: seq<byte> := [0xFF, 0xCA, 0x00, 0x00, 0x00];
    XorFFCA();
    assert CalculateChecksum(apdu[..1]) == 0xFF by { assert apdu[..1][..0] == []; }
    assert CalculateChecksum(apdu[..2]) == 0x35 by { assert apdu[..2][..1] == apdu[..1]; }
    assert CalculateChecksum(apdu[..3]) == 0x35 by { assert apdu[..3][..2] == apdu[..2]; }
    assert CalculateChecksum(apdu[..4]) == 0x35 by { assert apdu[..4][..3] == apdu[..3]; }
    assert apdu[..4] == apdu[..|apdu| - 1];
  }

  /** `0xFF ^ 0xCA == 0x35`, one bit at a time from the top. */
  lemma XorFFCA()
    ensures Xor(0xFF, 0xCA) == 0x35
  {
    assert Xor(1, 1) == 0;
    assert Xor(3, 3) == 2 * Xor(1, 1);
    assert Xor(7, 6) == 2 * Xor(3, 3) + 1;
    assert Xor(15, 12) == 2 * Xor(7, 6) + 1;
    assert Xor(31, 25) == 2 * Xor(15, 12);
    assert Xor(63, 50) == 2 * Xor(31, 25) + 1;
    assert Xor(127, 101) == 2 * Xor(63, 50);
    assert Xor(255, 202) == 2 * Xor(127, 101) + 1;
  }

  /** A frame on which one byte has been changed no longer folds to 0: a
      receiver that checks the checksum detects any single corrupted byte. */
  lemma {:induction false} SingleByteErrorDetected(frame: seq<byte>, i: nat, b: byte)
    requires CalculateChecksum(frame) == 0
    requires i < |frame| && b != frame[i]
    ensures CalculateChecksum(frame[i := b]) != 0
  {
    var before, after := frame[..i], frame[i + 1..];
    assert frame == before + [frame[i]] + after;
    assert frame[i := b] == before + [b] + after;
    ChecksumAppend(before + [frame[i]], after);
    ChecksumAppend(before + [b], after);
    ChecksumAppend(before, [frame[i]]);
    ChecksumAppend(before, [b]);
    assert [frame[i]][..0] == [] && [b][..0] == [];
    var p, q := CalculateChecksum(before), CalculateChecksum(after);
    // Xor(Xor(p, frame[i]), q) == 0, and Xor(Xor(p, b), q) would be 0 too
    if CalculateChecksum(frame[i := b]) == 0 {
      XorCancel(Xor(p, frame[i]), Xor(p, b), q);
      XorCancel(frame[i], b, p);
      assert false;
    }
  }

  /** `x ^ c == y ^ c` only when `x == y`. */
  lemma XorCancel(x: nat, y: nat, c: nat)
    requires Xor(x, c) == Xor(y, c) || Xor(c, x) == Xor(c, y)
    ensures x == y
  {
    XorCommutes(x, c);
    XorCommutes(y, c);
    XorAssociates(x, c, c);
    XorAssociates(y, c, c);
    XorSelf(c);
  }
}
