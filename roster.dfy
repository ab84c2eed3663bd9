/**
 * The patient roster page: the search filter over name and e-mail, and the
 * page state (roster, search box, add-patient form, dialog flag) with the
 * handler that appends a patient built from the form.
 */
module Roster {
  import opened Wrappers
  import opened JsStrings

  /** A roster entry. `age` is `None` where `parseInt` gave NaN. */
  datatype Patient = Patient(
    id: int,
    name: string,
    age: Option<int>,
    gender: string,
    phone: string,
    email: string,
    dateOfBirth: string,
    address: string,
    emergencyContact: string,
    medicalConditions: seq<string>,
    activeMedications: int,
    lastVisit: string)

  datatype DraftField = Name | Age | Gender | Phone | Email | DateOfBirth | Address | EmergencyContact | MedicalConditions

  /** The add-patient form: every field is the text typed so far. */
  datatype Draft = Draft(
    name: string,
    age: string,
    gender: string,
    phone: string,
    email: string,
    dateOfBirth: string,
    address: string,
    emergencyContact: string,
    medicalConditions: string)
  {
    function Get(field: DraftField): string {
      match field
      case Name => name
      case Age => age
      case Gender => gender
      case Phone => phone
      case Email => email
      case DateOfBirth => dateOfBirth
      case Address => address
      case EmergencyContact => emergencyContact
      case MedicalConditions => medicalConditions
    }

    /** `{ ...newPatient, field: value }`: one field replaced, the others kept. */
    function With(field: DraftField, value: string): (d: Draft)
      ensures d.Get(field) == value
      ensures forall other :: other != field ==> d.Get(other) == Get(other)
    {
      match field
      case Name => this.(name := value)
      case Age => this.(age := value)
      case Gender => this.(gender := value)
      case Phone => this.(phone := value)
      case Email => this.(email := value)
      case DateOfBirth => this.(dateOfBirth := value)
      case Address => this.(address := value)
      case EmergencyContact => this.(emergencyContact := value)
      case MedicalConditions => this.(medicalConditions := value)
    }
  }

  const EmptyDraft: Draft := Draft("", "", "", "", "", "", "", "", "")

  const MockPatients: seq<Patient> := [
    Patient(1, "John Smith", Some(65), "Male", "(555) 123-4567", "john.smith@email.com", "1958-03-15",
      "123 Main St, City, State 12345", "Jane Smith - (555) 987-6543", ["Hypertension", "Diabetes Type 2"], 4, "2024-01-15"),
    Patient(2, "Mary Johnson", Some(72), "Female", "(555) 234-5678", "mary.johnson@email.com", "1951-08-22",
      "456 Oak Ave, City, State 12345", "Robert Johnson - (555) 876-5432", ["Diabetes Type 2", "High Cholesterol"], 3, "2024-01-12"),
    Patient(3, "Robert Davis", Some(58), "Male", "(555) 345-6789", "robert.davis@email.com", "1965-11-08",
      "789 Pine St, City, State 12345", "Linda Davis - (555) 765-4321", ["High Cholesterol", "Hypertension"], 2, "2024-01-10")
  ]

  // ---------------------------------------------------------------------
  // Search

  /** The lower-cased name or the lower-cased e-mail contains the lower-cased term. */
  predicate Matches(p: Patient, term: string)
    ensures term == "" ==> Matches(p, term)
    ensures Matches(p, term) ==> |term| <= |p.name| || |term| <= |p.email|
  {
    Includes(ToLower(p.name), ToLower(term)) || Includes(ToLower(p.email), ToLower(term))
  }

  /** `patients.filter(...)`: the patients that match, in roster order. */
  function Filter(patients: seq<Patient>, term: string): (kept: seq<Patient>)
    ensures |kept| <= |patients|
    ensures forall p :: p in kept <==> p in patients && Matches(p, term)
  {
    if patients == [] then []
    else
      var last := patients[|patients| - 1];
      Filter(patients[..|patients| - 1], term) + (if Matches(last, term) then [last] else [])
  }

  /** The roster positions of the matching patients, in increasing order. */
  function MatchingPositions(patients: seq<Patient>, term: string): (positions: seq<int>)
    ensures forall k :: 0 <= k < |positions| ==> 0 <= positions[k] < |patients|
    ensures forall k, l :: 0 <= k < l < |positions| ==> positions[k] < positions[l]
    ensures forall i :: i in positions <==> 0 <= i < |patients| && Matches(patients[i], term)
  {
    if patients == [] then []
    else
      var n := |patients| - 1;
      MatchingPositions(patients[..n], term) + (if Matches(patients[n], term) then [n] else [])
  }

  /** The filter result is the roster read at the matching positions: a subsequence in the original order. */
  lemma {:induction false} FilterSelectsInOrder(patients: seq<Patient>, term: string)
    ensures |Filter(patients, term)| == |MatchingPositions(patients, term)|
    ensures forall k :: 0 <= k < |Filter(patients, term)| ==>
      Filter(patients, term)[k] == patients[MatchingPositions(patients, term)[k]]
  {
    if patients != [] {
      var n := |patients| - 1;
      var init := patients[..n];
      FilterSelectsInOrder(init, term);
      var kept, positions := Filter(patients, term), MatchingPositions(patients, term);
      forall k | 0 <= k < |kept|
        ensures kept[k] == patients[positions[k]]
      {
        if k < |Filter(init, term)| {
          assert kept[k] == Filter(init, term)[k];
          assert positions[k] == MatchingPositions(init, term)[k];
        }
      }
    }
  }

  /** A list whose every patient matches passes the filter unchanged. */
  lemma {:induction false} FilterKeepsAllMatching(patients: seq<Patient>, term: string)
    requires forall i :: 0 <= i < |patients| ==> Matches(patients[i], term)
    ensures Filter(patients, term) == patients
  {
    if patients != [] {
      var init := patients[..|patients| - 1];
      var last := patients[|patients| - 1];
      assert Filter(init, term) == init by {
        forall i | 0 <= i < |init| ensures Matches(init[i], term) {
          assert init[i] == patients[i];
        }
        FilterKeepsAllMatching(init, term);
      }
      calc {
        Filter(patients, term);
        Filter(init, term) + (if Matches(last, term) then [last] else []);
        { assert Matches(last, term); }
        init + [last];
        { assert init + [last] == patients; }
        patients;
      }
    }
  }

  /** Filtering twice with the same term gives the same cards as filtering once. */
  lemma FilterIdempotent(patients: seq<Patient>, term: string)
    ensures Filter(Filter(patients, term), term) == Filter(patients, term)
  {
    var kept := Filter(patients, term);
    assert forall i :: 0 <= i < |kept| ==> kept[i] in kept;
    FilterKeepsAllMatching(kept, term);
  }

  /** An empty search box shows the whole roster. */
  lemma FilterEmptyTerm(patients: seq<Patient>)
    ensures Filter(patients, "") == patients
  {
    assert ToLower("") == "";
    forall i | 0 <= i < |patients|
      ensures Matches(patients[i], "")
    {
      IncludesEmpty(ToLower(patients[i].name));
    }
    FilterKeepsAllMatching(patients, "");
  }

  /** No cards (the "No patients found" state) exactly when no patient matches. */
  lemma FilterEmptyIffNoMatch(patients: seq<Patient>, term: string)
    ensures Filter(patients, term) == [] <==> forall i :: 0 <= i < |patients| ==> !Matches(patients[i], term)
  {
    if Filter(patients, term) != [] {
      assert Filter(patients, term)[0] in Filter(patients, term);
    }
  }

  /** Matching is case-insensitive in the term: the lower-cased term selects the same patients. */
  lemma {:induction false} FilterIgnoresTermCase(patients: seq<Patient>, term: string)
    ensures Filter(patients, ToLower(term)) == Filter(patients, term)
  {
    ToLowerIdempotent(term);
    if patients != [] {
      FilterIgnoresTermCase(patients[..|patients| - 1], term);
    }
  }

  /** Two terms that differ only in the case of ASCII letters select the same patients. */
  lemma {:induction false} FilterSameForCaseVariants(patients: seq<Patient>, term1: string, term2: string)
    requires ToLower(term1) == ToLower(term2)
    ensures Filter(patients, term1) == Filter(patients, term2)
  {
    if patients != [] {
      FilterSameForCaseVariants(patients[..|patients| - 1], term1, term2);
    }
  }

  /** A patient matches exactly when the lower-cased term occurs in the lower-cased name or e-mail. */
  lemma MatchesIffOccurs(p: Patient, term: string)
    ensures Matches(p, term) <==>
      (exists i :: OccursAt(ToLower(p.name), ToLower(term), i)) || (exists i :: OccursAt(ToLower(p.email), ToLower(term), i))
  {
    IncludesIffOccurs(ToLower(p.name), ToLower(term));
    IncludesIffOccurs(ToLower(p.email), ToLower(term));
  }

  // ---------------------------------------------------------------------
  // Registration

  /** `text.split(",").map((c) => c.trim())`. */
  function ConditionLabels(text: string): (labels: seq<string>)
    ensures |labels| == multiset(text)[','] + 1
    ensures forall k :: 0 <= k < |labels| ==> IsTrimmed(labels[k]) && ',' !in labels[k]
    ensures forall k :: 0 <= k < |labels| ==> labels[k] == Trim(Split(text, ',')[k])
  {
    var parts := Split(text, ',');
    seq(|parts|, k requires 0 <= k < |parts| => Trim(parts[k]))
  }

  /** Each label with its own white space in front and behind. */
  function Padded(fronts: seq<string>, labels: seq<string>, backs: seq<string>): (padded: seq<string>)
    requires |fronts| == |labels| && |backs| == |labels|
    ensures |padded| == |labels|
    ensures forall k :: 0 <= k < |labels| ==> padded[k] == fronts[k] + labels[k] + backs[k]
  {
    seq(|labels|, k requires 0 <= k < |labels| => fronts[k] + labels[k] + backs[k])
  }

  /** An empty conditions field gives one blank label, not an empty list. */
  lemma EmptyConditions()
    ensures ConditionLabels("") == [""]
  {
  }

  /** Comma-free labels padded with white space and joined with commas are read back trimmed. */
  lemma ConditionLabelsOfPaddedJoin(fronts: seq<string>, labels: seq<string>, backs: seq<string>)
    requires |labels| > 0 && |fronts| == |labels| && |backs| == |labels|
    requires forall k :: 0 <= k < |labels| ==> AllWhiteSpace(fronts[k]) && AllWhiteSpace(backs[k])
    requires forall k :: 0 <= k < |labels| ==> IsTrimmed(labels[k]) && ',' !in labels[k]
    ensures ConditionLabels(Join(Padded(fronts, labels, backs), ',')) == labels
  {
    var padded := Padded(fronts, labels, backs);
    forall k | 0 <= k < |padded|
      ensures ',' !in padded[k]
    {
      assert !IsWhiteSpace(',');
      assert ',' !in fronts[k] && ',' !in backs[k];
    }
    SplitJoin(padded, ',');
    forall k | 0 <= k < |labels|
      ensures Trim(padded[k]) == labels[k]
    {
      TrimPadded(fronts[k], labels[k], backs[k]);
    }
  }

  /** The next record: id given, draft text copied, age parsed, conditions split and trimmed, no medications yet. */
  function FromDraft(draft: Draft, id: int, lastVisit: string): (p: Patient)
    ensures p.id == id && p.activeMedications == 0 && p.lastVisit == lastVisit
    ensures p.name == draft.name && p.email == draft.email && p.phone == draft.phone && p.gender == draft.gender
    ensures p.dateOfBirth == draft.dateOfBirth && p.address == draft.address && p.emergencyContact == draft.emergencyContact
    ensures p.age.Some? ==> exists i :: 0 <= i < |draft.age| && IsDecimalDigit(draft.age[i])
    ensures |p.medicalConditions| == multiset(draft.medicalConditions)[','] + 1
    ensures p.age == ParseInt(draft.age) && p.medicalConditions == ConditionLabels(draft.medicalConditions)
  {
    Patient(
      id,
      draft.name,
      ParseInt(draft.age),
      draft.gender,
      draft.phone,
      draft.email,
      draft.dateOfBirth,
      draft.address,
      draft.emergencyContact,
      ConditionLabels(draft.medicalConditions),
      0,
      lastVisit)
  }

  /** Submitting the untouched form records a NaN age and one blank condition. */
  lemma UntouchedFormRecord(id: int, lastVisit: string)
    ensures FromDraft(EmptyDraft, id, lastVisit).age == None
    ensures FromDraft(EmptyDraft, id, lastVisit).medicalConditions == [""]
  {
    ParseIntWithoutDigits("", "", "");
    assert "" + "" + "" == "";
  }

  /** An age typed as a decimal numeral, possibly padded, is recorded as that number. */
  lemma FromDraftReadsAge(draft: Draft, id: int, lastVisit: string, space: string, n: nat)
    requires AllWhiteSpace(space)
    requires draft.age == space + IntToString(n)
    ensures FromDraft(draft, id, lastVisit).age == Some(n)
  {
    ParseIntOfNumeral(space, n, "");
    assert space + IntToString(n) + "" == draft.age;
  }

  /** Ids are 1, 2, ..., n in roster order. */
  predicate IdsSequential(patients: seq<Patient>) {
    forall i :: 0 <= i < |patients| ==> patients[i].id == i + 1
  }

  /** Under sequential ids every id is distinct, and the length-based next id is new and keeps ids sequential. */
  lemma NextIdIsFresh(patients: seq<Patient>, draft: Draft, lastVisit: string)
    requires IdsSequential(patients)
    ensures forall i, j :: 0 <= i < j < |patients| ==> patients[i].id != patients[j].id
    ensures forall i :: 0 <= i < |patients| ==> patients[i].id != |patients| + 1
    ensures IdsSequential(patients + [FromDraft(draft, |patients| + 1, lastVisit)])
  {
  }

  /** Without sequential ids the length-based id can repeat one in use: a roster holding only id 2 gets 2 again. */
  lemma LengthIdCanRepeat(draft: Draft, lastVisit: string)
    ensures var roster := [MockPatients[1]];
      FromDraft(draft, |roster| + 1, lastVisit).id == roster[0].id
  {
  }

  lemma MockPatientsSequential()
    ensures IdsSequential(MockPatients)
  {
  }

  // ---------------------------------------------------------------------
  // Page state

  /** The state of the patients page. */
  class PatientsPage {
    var patients: seq<Patient>
    var searchTerm: string
    var newPatient: Draft
    var isAddDialogOpen: bool

    /** Ids are 1..n: true of the initial roster, and every add keeps it. */
    ghost predicate Valid()
      reads this
    {
      IdsSequential(patients)
    }

    constructor ()
      ensures Valid()
      ensures patients == MockPatients && searchTerm == "" && newPatient == EmptyDraft && !isAddDialogOpen
    {
      patients := MockPatients;
      searchTerm := "";
      newPatient := EmptyDraft;
      isAddDialogOpen := false;
    }

    /** The cards shown under the search box. */
    function FilteredPatients(): (shown: seq<Patient>)
      reads this
      ensures forall p :: p in shown <==> p in patients && Matches(p, searchTerm)
    {
      Filter(patients, searchTerm)
    }

    /** Typing in the search box. */
    method SetSearchTerm(term: string)
      modifies this
      ensures searchTerm == term
      ensures patients == old(patients) && newPatient == old(newPatient) && isAddDialogOpen == old(isAddDialogOpen)
    {
      searchTerm := term;
    }

    /** Typing in one field of the add-patient form. */
    method EditDraft(field: DraftField, value: string)
      modifies this
      ensures newPatient == old(newPatient).With(field, value)
      ensures patients == old(patients) && searchTerm == old(searchTerm) && isAddDialogOpen == old(isAddDialogOpen)
    {
      newPatient := newPatient.With(field, value);
    }

    /** Opening the dialog, or closing it with Cancel. */
    method SetAddDialogOpen(open: bool)
      modifies this
      ensures isAddDialogOpen == open
      ensures patients == old(patients) && searchTerm == old(searchTerm) && newPatient == old(newPatient)
    {
      isAddDialogOpen := open;
    }

    /**
     * `handleAddPatient`: append the record built from the form with id
     * length + 1, clear the form, close the dialog. `today` is the date the
     * page reads from the clock.
     */
    method AddPatient(today: string)
      requires Valid()
      modifies this
      ensures Valid()
      ensures patients == old(patients) + [FromDraft(old(newPatient), |old(patients)| + 1, today)]
      ensures newPatient == EmptyDraft && !isAddDialogOpen && searchTerm == old(searchTerm)
    {
      var patient := FromDraft(newPatient, |patients| + 1, today);
      NextIdIsFresh(patients, newPatient, today);
      patients := patients + [patient];
      newPatient := EmptyDraft;
      isAddDialogOpen := false;
    }
  }
}
