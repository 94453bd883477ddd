/** The queries of the prescription repository, as functions of the stored
    rows `s`. `CURRENT_DATE` is the parameter `today`. */
module PrescriptionRepository {
  import opened Common
  import opened Collections
  import opened Text
  import opened Prescriptions

  /** `findById`: the position of the prescription with that key. */
  function IndexOfPrescription(s: seq<Prescription>, id: nat): (r: Option<nat>)
    ensures r.Some? ==> r.value < |s| && s[r.value].id == id
    ensures r.None? <==> forall p :: p in s ==> p.id != id
  {
    FirstIndex(s, (p: Prescription) => p.id == id)
  }

  /** The primary key: no two stored prescriptions share an id. */
  ghost predicate DistinctIds(s: seq<Prescription>) {
    forall i, j :: 0 <= i < j < |s| ==> s[i].id != s[j].id
  }

  /** With distinct ids, `findById` finds the one prescription with that id, and
      replacing a prescription by one with the same id keeps the ids distinct. */
  lemma IndexOfPrescriptionIsTheRow(s: seq<Prescription>, i: nat, p: Prescription)
    requires DistinctIds(s) && i < |s|
    ensures IndexOfPrescription(s, s[i].id) == Some(i)
    ensures p.id == s[i].id ==> DistinctIds(s[i := p])
  {
    var found := IndexOfPrescription(s, s[i].id);
    if found != Some(i) {
      assert false;
    }
  }

  /** Newest prescription date first. */
  function NewestFirst(rows: seq<Prescription>): (r: seq<Prescription>)
    ensures multiset(r) == multiset(rows)
    ensures forall p :: p in r <==> p in rows
    ensures forall i, j :: 0 <= i < j < |r| ==> r[i].prescriptionDate >= r[j].prescriptionDate
  {
    var r := SortBy(rows, (p: Prescription) => -p.prescriptionDate);
    assert forall p :: p in r <==> p in rows by {
      forall p ensures p in r <==> p in rows { assert p in r <==> p in multiset(r); }
    }
    r
  }

  /** The WHERE clause of `findRefillablePrescriptions`. */
  predicate Refillable(p: Prescription, patientId: nat, today: Day) {
    p.patientId == patientId && p.refillsAllowed > p.refillsUsed && (p.endDate.None? || p.endDate.value > today)
  }

  /** `findRefillablePrescriptions`: the patient's prescriptions with refills left that
      have no end date or end after today, newest first. */
  function FindRefillablePrescriptions(s: seq<Prescription>, patientId: nat, today: Day): (r: seq<Prescription>)
    ensures forall p :: multiset(r)[p] == if Refillable(p, patientId, today) then multiset(s)[p] else 0
    ensures forall p :: p in r <==> p in s && Refillable(p, patientId, today)
    ensures forall i, j :: 0 <= i < j < |r| ==> r[i].prescriptionDate >= r[j].prescriptionDate
  {
    var keep := (p: Prescription) => Refillable(p, patientId, today);
    FilterMultiset(s, keep);
    NewestFirst(Filter(s, keep))
  }

  /** Every refillable row passes `canRefill`; the converse fails on the end date
      itself, which `canRefill` accepts and the query leaves out. */
  lemma RefillableImpliesCanRefill(s: seq<Prescription>, patientId: nat, today: Day)
    ensures forall p :: p in FindRefillablePrescriptions(s, patientId, today) ==> CanRefill(p, today)
    ensures forall p :: p in s && p.patientId == patientId && p.endDate == Some(today) ==>
              p !in FindRefillablePrescriptions(s, patientId, today)
  {
  }

  /** Three prescriptions of one patient: all refills used; refills left and ending
      in the future; refills left but ended yesterday. Only the second is refillable. */
  lemma RefillEligibilityCases(today: Day)
    ensures var used := Prescription(1, 5, 9, today - 10, "a", "", 3, 3, 30, 0, None, None, Prescribed, Some(today + 5), false, false);
      var left := used.(id := 2, refillsUsed := 2);
      var ended := left.(id := 3, endDate := Some(today - 1));
      var r := FindRefillablePrescriptions([used, left, ended], 5, today);
      used !in r && left in r && ended !in r
  {
    var used := Prescription(1, 5, 9, today - 10, "a", "", 3, 3, 30, 0, None, None, Prescribed, Some(today + 5), false, false);
    var left := used.(id := 2, refillsUsed := 2);
    var ended := left.(id := 3, endDate := Some(today - 1));
    assert !Refillable(used, 5, today) && Refillable(left, 5, today) && !Refillable(ended, 5, today);
    assert left in [used, left, ended];
  }

  /** `findExpiredPrescriptions`: the patient's PRESCRIBED prescriptions that end on or
      before `date`. */
  function FindExpiredPrescriptions(s: seq<Prescription>, patientId: nat, date: Day): (r: seq<Prescription>)
    ensures forall p :: p in r <==>
      p in s && p.patientId == patientId && p.endDate.Some? && p.endDate.value <= date && p.status == Prescribed
  {
    Filter(s, (p: Prescription) =>
      p.patientId == patientId && p.endDate.Some? && p.endDate.value <= date && p.status == Prescribed)
  }

  /** The expiry query counts the end date itself as expired, where `isExpired` does
      not: a PRESCRIBED row ending on `date` is returned although it is not expired. */
  lemma ExpiredQueryIncludesEndDate(s: seq<Prescription>, p: Prescription, date: Day)
    requires p in s && p.endDate == Some(date) && p.status == Prescribed
    ensures p in FindExpiredPrescriptions(s, p.patientId, date) && !IsExpired(p, date)
  {
  }

  /** `findPrescriptionsByPatientId`: all of the patient's prescriptions, newest first. */
  function FindPrescriptionsByPatientId(s: seq<Prescription>, patientId: nat): (r: seq<Prescription>)
    ensures forall p :: multiset(r)[p] == if p.patientId == patientId then multiset(s)[p] else 0
    ensures forall p :: p in r <==> p in s && p.patientId == patientId
    ensures forall i, j :: 0 <= i < j < |r| ==> r[i].prescriptionDate >= r[j].prescriptionDate
  {
    var keep := (p: Prescription) => p.patientId == patientId;
    FilterMultiset(s, keep);
    NewestFirst(Filter(s, keep))
  }

  /** The search condition: the lower-cased medication name or instructions match the
      lower-cased LIKE pattern `%search%`; `%` and `_` in the search text keep their
      meaning as wildcards. */
  predicate MatchesSearch(p: Prescription, search: string) {
    var pattern := ToLower("%" + search + "%");
    Like(ToLower(p.medicationName), pattern) || Like(ToLower(p.instructions), pattern)
  }

  /** The rows of `searchPrescriptions` before paging: the patient's prescriptions
      matching the search text, newest first. */
  function SearchMatches(s: seq<Prescription>, patientId: nat, search: string): (r: seq<Prescription>)
    ensures forall p :: multiset(r)[p] ==
                        if p.patientId == patientId && MatchesSearch(p, search) then multiset(s)[p] else 0
    ensures forall p :: p in r <==> p in s && p.patientId == patientId && MatchesSearch(p, search)
    ensures forall i, j :: 0 <= i < j < |r| ==> r[i].prescriptionDate >= r[j].prescriptionDate
  {
    var keep := (p: Prescription) => p.patientId == patientId && MatchesSearch(p, search);
    FilterMultiset(s, keep);
    NewestFirst(Filter(s, keep))
  }

  /** `searchPrescriptions`: page `page`, of `size` rows, of the matching rows: a run
      of consecutive matches starting at match page * size, newest first. */
  function SearchPrescriptions(s: seq<Prescription>, patientId: nat, search: string, page: nat, size: nat)
    : (r: seq<Prescription>)
    ensures |r| <= size
    ensures forall p :: p in r ==> p in s && p.patientId == patientId && MatchesSearch(p, search)
    ensures forall i, j :: 0 <= i < j < |r| ==> r[i].prescriptionDate >= r[j].prescriptionDate
    ensures PageStart(page, size) >= |SearchMatches(s, patientId, search)| ==> r == []
    ensures forall i :: 0 <= i < |r| ==>
                        PageStart(page, size) + i < |SearchMatches(s, patientId, search)|
                        && r[i] == SearchMatches(s, patientId, search)[PageStart(page, size) + i]
    ensures PageStart(page, size) + size <= |SearchMatches(s, patientId, search)| ==> |r| == size
  {
    var m := SearchMatches(s, patientId, search);
    PageKeepsOrder(m, page, size, (p: Prescription) => p.prescriptionDate);
    PageOf(m, page, size)
  }

  /** For a search text without wildcards the condition is a case-insensitive
      substring test on either column. */
  lemma PlainSearchIsSubstring(p: Prescription, search: string)
    requires NoWildcards(search)
    ensures MatchesSearch(p, search) <==>
      ContainsText(ToLower(p.medicationName), ToLower(search)) || ContainsText(ToLower(p.instructions), ToLower(search))
  {
    ToLowerAppend("%" + search, "%");
    ToLowerAppend("%", search);
    assert ToLower("%") == "%";
    assert ToLower("%" + search + "%") == "%" + ToLower(search) + "%";
    assert NoWildcards(ToLower(search));
    LikeContains(ToLower(p.medicationName), ToLower(search));
    LikeContains(ToLower(p.instructions), ToLower(search));
  }

  /** An empty search text matches every prescription of the patient. */
  lemma EmptySearchMatchesAll(s: seq<Prescription>, patientId: nat)
    ensures forall p :: p in SearchMatches(s, patientId, "") <==> p in s && p.patientId == patientId
  {
    forall p: Prescription
      ensures MatchesSearch(p, "")
    {
      var name := ToLower(p.medicationName);
      assert ToLower("%" + "" + "%") == "%" + "%";
      LikePercentMatchesAll(name);
      assert name[0..] == name;
      LikeLeadingPercent(name, "%");
    }
  }

  /** The wildcards in the search text act as wildcards: `_` finds every
      prescription, and `a%c` finds a medication named "Abc". */
  lemma SearchWildcardsAreLive(p: Prescription)
    requires |p.medicationName| > 0
    ensures MatchesSearch(p, "_")
    ensures p.medicationName == "Abc" ==> MatchesSearch(p, "a%c")
  {
    var name := ToLower(p.medicationName);
    assert ToLower("%" + "_" + "%") == "%_%";
    UnderscoreMatchesAnyNonEmpty(name);
    if p.medicationName == "Abc" {
      assert ToLower("%" + "a%c" + "%") == "%a%c%";
      assert name == "abc";
      assert Like("", "%");
      assert Like("c", "c%");
      assert Like("bc", "%c%");
      assert Like("abc", "a%c%");
    }
  }

  /** `findControlledSubstancePrescriptions`: PRESCRIBED controlled substances. */
  function FindControlledSubstancePrescriptions(s: seq<Prescription>): (r: seq<Prescription>)
    ensures forall p :: p in r <==> p in s && p.isControlledSubstance && p.status == Prescribed
  {
    Filter(s, (p: Prescription) => p.isControlledSubstance && p.status == Prescribed)
  }

  /** `findEmergencyPrescriptions`: emergencies that are PRESCRIBED or DISPENSED. */
  function FindEmergencyPrescriptions(s: seq<Prescription>): (r: seq<Prescription>)
    ensures forall p :: p in r <==> p in s && p.isEmergency && IsActive(p)
  {
    Filter(s, (p: Prescription) => p.isEmergency && (p.status == Prescribed || p.status == Dispensed))
  }
}
