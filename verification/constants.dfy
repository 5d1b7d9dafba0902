/** The configuration constants of `src/config/constants.js`: the creation
    steps and their titles, the endpoint paths and their builders, the
    sort options and the list of positions. Path builders take the
    identifier already rendered as text, as the template literals do. */
module Constants {

  const ApiBaseUrl: string := "https://buskoguard.up.railway.app/api"

  // AUTH_ENDPOINTS
  const LoginPath: string := "/auth/login/"
  const LogoutPath: string := "/auth/logout/"
  const RefreshTokenPath: string := "/auth/refresh/"

  // EMPLOYEE_STATUS
  const StatusActive: string := "ACTIVE"
  const StatusInactive: string := "INACTIVE"
  const StatusOnLeave: string := "ON_LEAVE"

  // ---------------------------------------------------------------------
  // CREATION_STEPS

  /** A step of the employee-creation wizard. */
  datatype Step = UserInfo | EmployeeInfo | NfcSetup | FaceSetup | Review

  /** The string each step stands for in `CREATION_STEPS`. */
  function StepValue(s: Step): string
  {
    match s
    case UserInfo => "user_info"
    case EmployeeInfo => "employee_info"
    case NfcSetup => "nfc_setup"
    case FaceSetup => "face_setup"
    case Review => "review"
  }

  /** `Object.values(CREATION_STEPS)`: the steps in declaration order. */
  const CreationSteps: seq<Step> := [UserInfo, EmployeeInfo, NfcSetup, FaceSetup, Review]

  /** The position of a step in `CreationSteps`. */
  function Position(s: Step): (i: nat)
    ensures i < |CreationSteps| && CreationSteps[i] == s
  {
    match s
    case UserInfo => 0
    case EmployeeInfo => 1
    case NfcSetup => 2
    case FaceSetup => 3
    case Review => 4
  }

  /** `Object.values(CREATION_STEPS)` as strings. */
  function CreationStepValues(): (values: seq<string>)
    ensures |values| == |CreationSteps|
    ensures forall i :: 0 <= i < |values| ==> values[i] == StepValue(CreationSteps[i])
  {
    ["user_info", "employee_info", "nfc_setup", "face_setup", "review"]
  }

  /** The five step values are pairwise distinct, so a value names exactly
      one step and every step appears exactly once. */
  lemma StepValuesDistinct()
    ensures forall i, j :: 0 <= i < j < |CreationStepValues()| ==> CreationStepValues()[i] != CreationStepValues()[j]
    ensures forall a: Step, b: Step :: StepValue(a) == StepValue(b) ==> a == b
  {
    var v := CreationStepValues();
    assert v[0][0] == 'u' && v[1][0] == 'e' && v[2][0] == 'n' && v[3][0] == 'f' && v[4][0] == 'r';
  }

  // ---------------------------------------------------------------------
  // STEP_TITLES

  /** The heading shown above a step. */
  datatype StepInfo = StepInfo(title: string, description: string)

  /** `STEP_TITLES`, keyed by step value. */
  const StepTitles: map<string, StepInfo> := map[
    "user_info" := StepInfo("Informations de connexion", "Créez le compte utilisateur pour l'employé"),
    "employee_info" := StepInfo("Informations professionnelles", "Ajoutez les détails professionnels de l'employé"),
    "nfc_setup" := StepInfo("Configuration NFC", "Configurez la carte NFC pour l'employé"),
    "face_setup" := StepInfo("Reconnaissance faciale", "Configurez la reconnaissance faciale"),
    "review" := StepInfo("Récapitulatif", "Vérifiez les informations avant de finaliser")
  ]

  /** `STEP_TITLES[step]`: every step has a non-empty title and description,
      and the table holds nothing else. */
  function StepTitle(s: Step): (info: StepInfo)
    ensures StepValue(s) in StepTitles && info == StepTitles[StepValue(s)]
    ensures info.title != "" && info.description != ""
  {
    StepTitles[StepValue(s)]
  }

  /** The keys of `STEP_TITLES` are exactly the step values. */
  lemma StepTitlesKeys()
    ensures forall k :: k in StepTitles <==> k in CreationStepValues()
  {
    var v := CreationStepValues();
    assert v[0] in v && v[1] in v && v[2] in v && v[3] in v && v[4] in v;
  }

  // ---------------------------------------------------------------------
  // EMPLOYEE_MANAGEMENT

  const EmployeeListPath: string := "/employee-management/"
  const DepartmentsPath: string := "/department-management/"

  /** `EMPLOYEE_MANAGEMENT.ACTIVATE(id)`. */
  function ActivatePath(id: string): (p: string)
    ensures |p| == |EmployeeListPath| + |id| + |"/activate/"|
    ensures p[..|EmployeeListPath|] == EmployeeListPath && p[|EmployeeListPath|..|EmployeeListPath| + |id|] == id
  {
    EmployeeListPath + id + "/activate/"
  }

  /** `EMPLOYEE_MANAGEMENT.DEACTIVATE(id)`. */
  function DeactivatePath(id: string): (p: string)
    ensures |p| == |EmployeeListPath| + |id| + |"/deactivate/"|
    ensures p[..|EmployeeListPath|] == EmployeeListPath && p[|EmployeeListPath|..|EmployeeListPath| + |id|] == id
  {
    EmployeeListPath + id + "/deactivate/"
  }

  /** Activating and deactivating an employee address the same resource,
      `/employee-management/<id>/`, and differ only in the last segment. */
  lemma ActivationPathsShareResource(id: string)
    ensures var n := |EmployeeListPath| + |id| + 1;
      |ActivatePath(id)| > n && |DeactivatePath(id)| > n &&
      ActivatePath(id)[..n] == EmployeeListPath + id + "/" &&
      DeactivatePath(id)[..n] == EmployeeListPath + id + "/" &&
      ActivatePath(id)[n..] == "activate/" && DeactivatePath(id)[n..] == "deactivate/"
  {
    var r := EmployeeListPath + id + "/";
    assert ActivatePath(id) == r + "activate/";
    assert DeactivatePath(id) == r + "deactivate/";
  }

  /** No activation path is a deactivation path, whatever the two
      identifiers: ten characters from the end one has `/`, the other `e`. */
  lemma ActivateNeverDeactivate(a: string, b: string)
    ensures ActivatePath(a) != DeactivatePath(b)
  {
    var p, q := ActivatePath(a), DeactivatePath(b);
    if |p| == |q| {
      assert p[|p| - 10] == '/';
      assert q[|q| - 10] == 'e';
    }
  }

  /** `EMPLOYEE_MANAGEMENT.SET_NFC(id)`. */
  function SetNfcPath(id: string): (p: string)
    ensures |p| == |EmployeeListPath| + |id| + |"/set_nfc/"|
    ensures p[..|EmployeeListPath|] == EmployeeListPath && p[|EmployeeListPath|..|EmployeeListPath| + |id|] == id
  {
    EmployeeListPath + id + "/set_nfc/"
  }

  /** `EMPLOYEE_MANAGEMENT.SET_FACE_ID(id)`. */
  function SetFaceIdPath(id: string): (p: string)
    ensures |p| == |EmployeeListPath| + |id| + |"/set_face_id/"|
    ensures p[..|EmployeeListPath|] == EmployeeListPath && p[|EmployeeListPath|..|EmployeeListPath| + |id|] == id
  {
    EmployeeListPath + id + "/set_face_id/"
  }

  /** The two credential paths never coincide: the next-to-last character
      is `c` in one and `d` in the other. */
  lemma SetPathsDiffer(a: string, b: string)
    ensures SetNfcPath(a) != SetFaceIdPath(b)
  {
    var p, q := SetNfcPath(a), SetFaceIdPath(b);
    assert p[|p| - 2] == 'c';
    assert q[|q| - 2] == 'd';
  }

  // ---------------------------------------------------------------------
  // EMPLOYEE_CREATION_ENDPOINTS

  const CreateUserPath: string := "/employees/create/user/"
  const CreateBasicInfoPath: string := "/employees/create/basic-info/"
  const ValidateNfcPath: string := "/employees/validate-nfc/"

  /** `EMPLOYEE_CREATION_ENDPOINTS.UPDATE_NFC(id)`. */
  function UpdateNfcPath(id: string): (p: string)
    ensures |p| == |"/employees/"| + |id| + |"/nfc/"|
    ensures p[..|"/employees/"|] == "/employees/" && p[|"/employees/"|..|"/employees/"| + |id|] == id
  {
    "/employees/" + id + "/nfc/"
  }

  /** `EMPLOYEE_CREATION_ENDPOINTS.UPDATE_FACE(id)`. */
  function UpdateFacePath(id: string): (p: string)
    ensures |p| == |"/employees/"| + |id| + |"/face-id/"|
    ensures p[..|"/employees/"|] == "/employees/" && p[|"/employees/"|..|"/employees/"| + |id|] == id
  {
    "/employees/" + id + "/face-id/"
  }

  /** The identifier can be read back from an `UPDATE_NFC` path, so distinct
      employees get distinct paths. */
  lemma UpdateNfcInjective(a: string, b: string)
    ensures UpdateNfcPath(a) == UpdateNfcPath(b) ==> a == b
  {
    if UpdateNfcPath(a) == UpdateNfcPath(b) {
      assert a == UpdateNfcPath(a)[11..|UpdateNfcPath(a)| - 5];
      assert b == UpdateNfcPath(b)[11..|UpdateNfcPath(b)| - 5];
    }
  }

  /** The same holds for `UPDATE_FACE`. */
  lemma UpdateFaceInjective(a: string, b: string)
    ensures UpdateFacePath(a) == UpdateFacePath(b) ==> a == b
  {
    if UpdateFacePath(a) == UpdateFacePath(b) {
      assert a == UpdateFacePath(a)[11..|UpdateFacePath(a)| - 9];
      assert b == UpdateFacePath(b)[11..|UpdateFacePath(b)| - 9];
    }
  }

  /** The card and the face credential are stored under different paths,
      for the same identifier or any two. */
  lemma UpdatePathsDiffer(a: string, b: string)
    ensures UpdateNfcPath(a) != UpdateFacePath(b)
  {
    var p, q := UpdateNfcPath(a), UpdateFacePath(b);
    assert p[|p| - 2] == 'c';
    assert q[|q| - 2] == 'd';
  }

  // ---------------------------------------------------------------------
  // DEPARTMENT_ENDPOINTS and DEPARTMENT_ACTIONS

  const DepartmentListPath: string := "/departments/"

  /** `DEPARTMENT_ENDPOINTS.DETAIL(id)`. */
  function DepartmentDetailPath(id: string): (p: string)
    ensures |p| == |DepartmentListPath| + |id| + |"/"|
    ensures p[..|DepartmentListPath|] == DepartmentListPath && p[|DepartmentListPath|..|DepartmentListPath| + |id|] == id
  {
    DepartmentListPath + id + "/"
  }

  /** `DEPARTMENT_ENDPOINTS.STATS(id)`. */
  function DepartmentStatsPath(id: string): (p: string)
    ensures |p| == |DepartmentListPath| + |id| + |"/stats/"|
    ensures p[..|DepartmentListPath|] == DepartmentListPath && p[|DepartmentListPath|..|DepartmentListPath| + |id|] == id
  {
    DepartmentListPath + id + "/stats/"
  }

  /** A department's statistics live one segment below its detail path,
      which itself lies below the list path. */
  lemma DepartmentPathsNest(id: string)
    ensures DepartmentStatsPath(id) == DepartmentDetailPath(id) + "stats/"
    ensures DepartmentDetailPath(id)[..|DepartmentListPath|] == DepartmentListPath
  {
    assert DepartmentListPath + id + "/stats/" == (DepartmentListPath + id + "/") + "stats/";
  }

  const ActionCreate: string := "create"
  const ActionEdit: string := "edit"
  const ActionDelete: string := "delete"

  // ---------------------------------------------------------------------
  // SORT_OPTIONS and EMPLOYEE_POSITIONS

  /** An entry of the department list's sort menu. */
  datatype SortOption = SortOption(value: string, caption: string)

  const SortOptions: seq<SortOption> := [
    SortOption("name", "Nom (A-Z)"),
    SortOption("-name", "Nom (Z-A)"),
    SortOption("employee_count", "Nombre d'employés"),
    SortOption("-employee_count", "Nombre d'employés (décroissant)"),
    SortOption("attendance_rate", "Taux de présence"),
    SortOption("-attendance_rate", "Taux de présence (décroissant)"),
    SortOption("created_at", "Date de création"),
    SortOption("-created_at", "Date de création (décroissant)")
  ]

  /** The sort fields, in menu order. */
  const SortFields: seq<string> := ["name", "employee_count", "attendance_rate", "created_at"]

  /** Each of the four fields appears once ascending and, right after it,
      once descending with a `-` prefix. */
  lemma SortOptionsPairUp()
    ensures |SortOptions| == 2 * |SortFields|
    ensures forall i :: 0 <= i < |SortFields| ==>
      SortOptions[2 * i].value == SortFields[i] && SortOptions[2 * i + 1].value == "-" + SortFields[i]
  {
    forall i | 0 <= i < |SortFields|
      ensures SortOptions[2 * i].value == SortFields[i] && SortOptions[2 * i + 1].value == "-" + SortFields[i]
    {
      if i == 0 {
        assert "-" + "name" == "-name";
      } else if i == 1 {
        assert "-" + "employee_count" == "-employee_count";
      } else if i == 2 {
        assert "-" + "attendance_rate" == "-attendance_rate";
      } else {
        assert "-" + "created_at" == "-created_at";
      }
    }
  }

  /** No field name starts with `-`, and the four differ in their first
      letter, so the eight values are pairwise distinct. */
  lemma SortValuesDistinct()
    ensures forall i, j :: 0 <= i < j < |SortOptions| ==> SortOptions[i].value != SortOptions[j].value
  {
    forall i, j | 0 <= i < j < |SortOptions|
      ensures SortOptions[i].value != SortOptions[j].value
    {
      var a, b := SortOptions[i].value, SortOptions[j].value;
      if i % 2 != j % 2 || i % 2 == 0 {
        assert a[0] != b[0];
      } else {
        assert a[1] != b[1];
      }
    }
  }

  /** `EMPLOYEE_POSITIONS`. */
  const EmployeePositions: seq<string> := [
    "Développeur", "Designer", "Chef de projet", "Manager", "Ressources Humaines",
    "Commercial", "Support technique", "Administrateur système", "Comptable", "Assistant(e)"
  ]

  /** Ten positions, pairwise distinct (the select uses them as keys). */
  lemma PositionsDistinct()
    ensures |EmployeePositions| == 10
    ensures forall i, j :: 0 <= i < j < |EmployeePositions| ==> EmployeePositions[i] != EmployeePositions[j]
  {
    var p := EmployeePositions;
    // Two characters tell the ten entries apart: the first and the second.
    assert p[0][0] == 'D' && p[0][1] == 'é';
    assert p[1][0] == 'D' && p[1][1] == 'e';
    assert p[2][0] == 'C' && p[2][1] == 'h';
    assert p[3][0] == 'M';
    assert p[4][0] == 'R';
    assert p[5][0] == 'C' && p[5][1] == 'o';
    assert p[6][0] == 'S';
    assert p[7][0] == 'A' && p[7][1] == 'd';
    assert p[8][0] == 'C' && p[8][1] == 'o' && p[8][2] == 'm' && p[5][2] == 'm' && p[8][3] == 'p' && p[5][3] == 'm';
    assert p[9][0] == 'A' && p[9][1] == 's';
  }
}
