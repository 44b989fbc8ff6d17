/**
 * The patient database table: the conjunctive filter over the records, the
 * keyed sort of a copy of the filtered list, and the status labels.
 * `localeCompare` and `new Date` are modelled as lexicographic order on the
 * strings, which for `YYYY-MM-DD` dates is chronological order.
 */
module Patients {
  import opened Text
  import opened Seqs

  /** One row of the table. */
  datatype Patient = Patient(
    id: string,
    hospital: string,
    date: string,
    status: string,
    fields: nat,
    hospitalKey: string)

  /** The three filter inputs as read from the page; the id filter is lower-cased on reading. */
  datatype Filters = Filters(patientId: string, hospital: string, status: string)

  /** Whether a record passes every filter; an empty filter imposes nothing. */
  predicate Matches(f: Filters, p: Patient) {
    var idFilter := ToLower(f.patientId);
    && (idFilter == "" || Includes(ToLower(p.id), idFilter))
    && (f.hospital == "" || p.hospitalKey == f.hospital)
    && (f.status == "" || p.status == f.status)
  }

  /** The records `applyDatabaseFilters` keeps, in their original order. */
  function FilterPatients(all: seq<Patient>, f: Filters): seq<Patient> {
    Filter(all, p => Matches(f, p))
  }

  /**
   * The filtered list is an in-order sub-list of the records; it holds each
   * record, as often as it occurs, exactly when the record's lower-cased id
   * contains the lower-cased id filter, its hospital key equals the hospital
   * filter and its status equals the status filter, each where that filter
   * is not empty.
   */
  lemma FilterPatientsSpec(all: seq<Patient>, f: Filters)
    ensures IsSubsequence(FilterPatients(all, f), all)
    ensures forall p :: multiset(FilterPatients(all, f))[p] ==
              (if (exists i :: OccursAt(ToLower(p.id), ToLower(f.patientId), i))
                  && (f.hospital == "" || p.hospitalKey == f.hospital)
                  && (f.status == "" || p.status == f.status)
               then multiset(all)[p] else 0)
  {
    FilterIsSubsequence(all, p => Matches(f, p));
    FilterCount(all, p => Matches(f, p));
    forall p
      ensures Matches(f, p) <==>
                ((exists i :: OccursAt(ToLower(p.id), ToLower(f.patientId), i))
                 && (f.hospital == "" || p.hospitalKey == f.hospital)
                 && (f.status == "" || p.status == f.status))
    {
      if ToLower(f.patientId) == "" {
        assert OccursAt(ToLower(p.id), ToLower(f.patientId), 0);
      }
    }
  }

  /** With every filter empty, all the records are kept, in their order. */
  lemma EmptyFiltersKeepAll(all: seq<Patient>)
    ensures FilterPatients(all, Filters("", "", "")) == all
  {
    FilterKeepsAll(all, p => Matches(Filters("", "", ""), p));
  }

  /** The orders the sort selector offers. */
  datatype SortKey = ByDate | ByPatientId | ByStatus | ByHospital | Unsorted

  /** The `switch (sortBy)` of `sortPatients`; any other value keeps the original order. */
  function SortKeyOf(sortBy: string): SortKey {
    if sortBy == "date" then ByDate
    else if sortBy == "patient-id" then ByPatientId
    else if sortBy == "status" then ByStatus
    else if sortBy == "hospital" then ByHospital
    else Unsorted
  }

  /** Lexicographic order on strings by character code. */
  predicate LexLeq(a: string, b: string)
    decreases |a|
  {
    a == [] || (b != [] && (a[0] < b[0] || (a[0] == b[0] && LexLeq(a[1..], b[1..]))))
  }

  lemma {:induction false} LexLeqTotal(a: string, b: string)
    ensures LexLeq(a, b) || LexLeq(b, a)
    decreases |a|
  {
    if a != [] && b != [] && a[0] == b[0] {
      LexLeqTotal(a[1..], b[1..]);
    }
  }

  lemma {:induction false} LexLeqTransitive(a: string, b: string, c: string)
    requires LexLeq(a, b) && LexLeq(b, c)
    ensures LexLeq(a, c)
    decreases |a|
  {
    if a != [] && a[0] == b[0] && b[0] == c[0] {
      LexLeqTransitive(a[1..], b[1..], c[1..]);
    }
  }

  /**
   * Whether `a` may stand before `b` under the key: newest date first, or
   * ascending id, status or hospital name.
   */
  predicate InOrder(key: SortKey, a: Patient, b: Patient) {
    match key
    case ByDate => LexLeq(b.date, a.date)
    case ByPatientId => LexLeq(a.id, b.id)
    case ByStatus => LexLeq(a.status, b.status)
    case ByHospital => LexLeq(a.hospital, b.hospital)
    case Unsorted => true
  }

  lemma InOrderTotal(key: SortKey, a: Patient, b: Patient)
    ensures InOrder(key, a, b) || InOrder(key, b, a)
  {
    match key
    case ByDate => LexLeqTotal(a.date, b.date);
    case ByPatientId => LexLeqTotal(a.id, b.id);
    case ByStatus => LexLeqTotal(a.status, b.status);
    case ByHospital => LexLeqTotal(a.hospital, b.hospital);
    case Unsorted =>
  }

  lemma InOrderTransitive(key: SortKey, a: Patient, b: Patient, c: Patient)
    requires InOrder(key, a, b) && InOrder(key, b, c)
    ensures InOrder(key, a, c)
  {
    match key
    case ByDate => LexLeqTransitive(c.date, b.date, a.date);
    case ByPatientId => LexLeqTransitive(a.id, b.id, c.id);
    case ByStatus => LexLeqTransitive(a.status, b.status, c.status);
    case ByHospital => LexLeqTransitive(a.hospital, b.hospital, c.hospital);
    case Unsorted =>
  }

  predicate Sorted(key: SortKey, s: seq<Patient>) {
    forall i, j :: 0 <= i < j < |s| ==> InOrder(key, s[i], s[j])
  }

  /** Insert `x` before the first element it may precede. */
  function Insert(key: SortKey, x: Patient, s: seq<Patient>): seq<Patient> {
    if s == [] || InOrder(key, x, s[0]) then [x] + s
    else [s[0]] + Insert(key, x, s[1..])
  }

  /**
   * Array.prototype.sort with the key's comparator, as an insertion sort,
   * which is stable as the engine's sort is (SortPatientsStable).
   */
  function SortBy(key: SortKey, s: seq<Patient>): seq<Patient> {
    if s == [] then [] else Insert(key, s[0], SortBy(key, s[1..]))
  }

  /** `sortPatients(patients, sortBy)`: sort a copy of the list. */
  function SortPatients(patients: seq<Patient>, sortBy: string): seq<Patient> {
    SortBy(SortKeyOf(sortBy), patients)
  }

  lemma {:induction false} InsertPermutes(key: SortKey, x: Patient, s: seq<Patient>)
    ensures multiset(Insert(key, x, s)) == multiset(s) + multiset{x}
    decreases |s|
  {
    if s != [] && !InOrder(key, x, s[0]) {
      InsertPermutes(key, x, s[1..]);
      assert s == [s[0]] + s[1..];
    }
  }

  /** The head of a sorted list may precede everything inserted after it. */
  lemma HeadPrecedesInserted(key: SortKey, x: Patient, s: seq<Patient>)
    requires Sorted(key, s) && s != [] && !InOrder(key, x, s[0])
    ensures forall y :: y in Insert(key, x, s[1..]) ==> InOrder(key, s[0], y)
  {
    InsertPermutes(key, x, s[1..]);
    InOrderTotal(key, x, s[0]);
    forall y | y in Insert(key, x, s[1..]) ensures InOrder(key, s[0], y) {
      assert y in multiset(Insert(key, x, s[1..]));
      if y != x {
        assert y in multiset(s[1..]);
        var k :| 0 <= k < |s[1..]| && s[1..][k] == y;
        assert s[k + 1] == y;
      }
    }
  }

  lemma {:induction false} InsertSorted(key: SortKey, x: Patient, s: seq<Patient>)
    requires Sorted(key, s)
    ensures Sorted(key, Insert(key, x, s))
    decreases |s|
  {
    if s == [] {
    } else if InOrder(key, x, s[0]) {
      forall j | 0 < j < |s| ensures InOrder(key, x, s[j]) {
        InOrderTransitive(key, x, s[0], s[j]);
      }
    } else {
      var rest := Insert(key, x, s[1..]);
      assert Sorted(key, s[1..]);
      InsertSorted(key, x, s[1..]);
      HeadPrecedesInserted(key, x, s);
      var r := [s[0]] + rest;
      forall i, j | 0 <= i < j < |r| ensures InOrder(key, r[i], r[j]) {
        if i == 0 {
          assert r[j] in rest;
        } else {
          assert r[i] == rest[i - 1] && r[j] == rest[j - 1];
        }
      }
    }
  }

  /**
   * `sortPatients` returns a permutation of its input, ordered by the key:
   * newest date first for `date`, ascending id, status or hospital name for
   * the other keys.
   */
  lemma {:induction false} SortPatientsSpec(patients: seq<Patient>, sortBy: string)
    ensures multiset(SortPatients(patients, sortBy)) == multiset(patients)
    ensures Sorted(SortKeyOf(sortBy), SortPatients(patients, sortBy))
    decreases |patients|
  {
    if patients != [] {
      SortPatientsSpec(patients[1..], sortBy);
      InsertPermutes(SortKeyOf(sortBy), patients[0], SortBy(SortKeyOf(sortBy), patients[1..]));
      InsertSorted(SortKeyOf(sortBy), patients[0], SortBy(SortKeyOf(sortBy), patients[1..]));
      assert patients == [patients[0]] + patients[1..];
    }
  }

  /** Two records the key's comparator ranks equal: each may precede the other. */
  predicate SameRank(key: SortKey, a: Patient, b: Patient) {
    InOrder(key, a, b) && InOrder(key, b, a)
  }

  /** The records of `s` ranked equal to `z`, in their order in `s`. */
  function RankedWith(key: SortKey, z: Patient, s: seq<Patient>): seq<Patient> {
    if s == [] then []
    else (if SameRank(key, s[0], z) then [s[0]] else []) + RankedWith(key, z, s[1..])
  }

  /** Inserting a record puts it before every record of equal rank already there. */
  lemma {:induction false} InsertRankedWith(key: SortKey, z: Patient, x: Patient, s: seq<Patient>)
    ensures RankedWith(key, z, Insert(key, x, s))
            == (if SameRank(key, x, z) then [x] else []) + RankedWith(key, z, s)
    decreases |s|
  {
    if s == [] || InOrder(key, x, s[0]) {
      assert ([x] + s)[1..] == s;
    } else {
      var rest := Insert(key, x, s[1..]);
      assert ([s[0]] + rest)[1..] == rest;
      InsertRankedWith(key, z, x, s[1..]);
      if SameRank(key, x, z) && SameRank(key, s[0], z) {
        InOrderTransitive(key, x, z, s[0]);
        assert false;
      }
    }
  }

  /**
   * `sortPatients` is stable: records the comparator ranks equal come out in
   * the order they went in.
   */
  lemma {:induction false} SortPatientsStable(patients: seq<Patient>, sortBy: string, z: Patient)
    ensures RankedWith(SortKeyOf(sortBy), z, SortPatients(patients, sortBy))
            == RankedWith(SortKeyOf(sortBy), z, patients)
    decreases |patients|
  {
    if patients != [] {
      SortPatientsStable(patients[1..], sortBy, z);
      InsertRankedWith(SortKeyOf(sortBy), z, patients[0], SortBy(SortKeyOf(sortBy), patients[1..]));
    }
  }

  /** An unrecognised sort key returns the copy in the original order. */
  lemma {:induction false} SortUnknownKeepsOrder(patients: seq<Patient>, sortBy: string)
    requires sortBy !in {"date", "patient-id", "status", "hospital"}
    ensures SortPatients(patients, sortBy) == patients
    decreases |patients|
  {
    if patients != [] {
      SortUnknownKeepsOrder(patients[1..], sortBy);
      assert patients == [patients[0]] + patients[1..];
    }
  }

  /**
   * The table `applyDatabaseFilters` renders: the records passing the filters,
   * sorted by the selected key; its length is the count shown beside it.
   */
  function DatabaseView(all: seq<Patient>, f: Filters, sortBy: string): seq<Patient> {
    SortPatients(FilterPatients(all, f), sortBy)
  }

  /**
   * The rendered table holds exactly the matching records, each as often as
   * it occurs, in the selected order; with empty filters it holds them all.
   */
  lemma DatabaseViewSpec(all: seq<Patient>, f: Filters, sortBy: string)
    ensures forall p :: multiset(DatabaseView(all, f, sortBy))[p] == if Matches(f, p) then multiset(all)[p] else 0
    ensures Sorted(SortKeyOf(sortBy), DatabaseView(all, f, sortBy))
    ensures f == Filters("", "", "") ==> multiset(DatabaseView(all, f, sortBy)) == multiset(all)
  {
    SortPatientsSpec(FilterPatients(all, f), sortBy);
    FilterCount(all, p => Matches(f, p));
    if f == Filters("", "", "") {
      EmptyFiltersKeepAll(all);
    }
  }

  /** The label each known status is shown with. */
  const StatusLabels: map<string, string> := map[
    "processing" := "Processing",
    "review" := "Under Review",
    "completed" := "Completed",
    "delivered" := "Delivered"]

  /** `formatStatus`: a known status's label, any other status as it is. */
  function FormatStatus(status: string): (r: string)
    ensures status in StatusLabels ==> r == StatusLabels[status]
    ensures status !in StatusLabels ==> r == status
    ensures r in StatusLabels.Values || r == status
  {
    if status in StatusLabels then StatusLabels[status] else status
  }

  /** Formatting a status twice gives the same text as once: no label is itself a status key. */
  lemma FormatStatusIdempotent(status: string)
    ensures FormatStatus(FormatStatus(status)) == FormatStatus(status)
  {
    assert forall v :: v in StatusLabels.Values ==> v !in StatusLabels;
  }

  /**
   * Two statuses are shown with the same text only when they are equal, or
   * one is unknown and spells the other's label: the four known statuses are
   * shown with four different labels.
   */
  lemma FormatStatusCollision(a: string, b: string)
    ensures FormatStatus(a) == FormatStatus(b) <==>
              a == b || (a in StatusLabels && b == StatusLabels[a]) || (b in StatusLabels && a == StatusLabels[b])
  {
    assert forall v :: v in StatusLabels.Values ==> v !in StatusLabels;
    assert forall x, y :: x in StatusLabels && y in StatusLabels && x != y ==> StatusLabels[x] != StatusLabels[y];
  }
}
