/**
 * The statistics engine's state and its left-to-right pass, written as a
 * fold over the ordered calls, followed by the finalisation that builds the
 * per-employee records. StatisticsEngine.ComputeStatistics runs the same
 * computation with loops; AggregationFacts states what it computes.
 */
module Aggregation {
  import opened Common
  import opened Records

  /** An entry of the ordered map from phone to the one employee credited with its missed call. */
  datatype Assignment = Assignment(phone: Phone, name: string)

  /** Running counters of one employee (keyed by the employee's name). */
  datatype Tally = Tally(totalCalls: nat, incoming: nat, missed: nat, numbers: set<Phone>)

  /**
   * The state of the pass: global counters, the set of distinct numbers, the
   * numbers seen with a success code, the missed-call attributions in
   * insertion order, and the employees in insertion order with their tallies.
   */
  datatype Acc = Acc(
    totalCalls: nat,
    totalIncoming: nat,
    totalMissed: nat,
    uniqueNumbers: set<Phone>,
    globalSuccess: set<Phone>,
    assignedMissed: seq<Assignment>,
    names: seq<string>,
    emps: map<string, Tally>)

  /** One employee's line of the report data. */
  datatype EmployeeStats = EmployeeStats(
    name: string,
    totalCalls: nat,
    incoming: nat,
    missed: nat,
    uniqueNumbers: nat,
    unansweredCount: nat,
    unansweredNumbers: seq<Phone>)

  /** The statistics of one run. */
  datatype Stats = Stats(
    totalCalls: nat,
    totalIncoming: nat,
    totalMissed: nat,
    overallUniqueCount: nat,
    overallUnansweredCount: nat,
    employees: seq<EmployeeStats>)

  const NewTally := Tally(0, 0, 0, {})

  const Start := Acc(0, 0, 0, {}, {}, [], [], map[])

  /** The tally of employee `name`, or a fresh one when the employee has none yet (PHP `??=`). */
  function TallyIn(emps: map<string, Tally>, name: string): Tally {
    if name in emps then emps[name] else NewTally
  }

  /** The phones that have an attribution (the keys of the ordered map). */
  function AttributedPhones(entries: seq<Assignment>): set<Phone> {
    set a | a in entries :: a.phone
  }

  /** The attributions without the one for `p` (PHP `unset`), order kept. */
  function Without(entries: seq<Assignment>, p: Phone): seq<Assignment> {
    if entries == [] then []
    else
      var last := entries[|entries| - 1];
      Without(entries[..|entries| - 1], p) + (if last.phone == p then [] else [last])
  }

  /** Removing `p` keeps exactly the attributions of the other numbers. */
  lemma {:induction false} WithoutKeeps(entries: seq<Assignment>, p: Phone)
    ensures forall x :: x in Without(entries, p) <==> x in entries && x.phone != p
  {
    if entries != [] {
      var front := entries[..|entries| - 1];
      assert entries == front + [entries[|entries| - 1]];
      WithoutKeeps(front, p);
    }
  }

  /** The phones attributed to `name`, in the map's order. */
  function OwnedBy(entries: seq<Assignment>, name: string): seq<Phone> {
    if entries == [] then []
    else
      var last := entries[|entries| - 1];
      OwnedBy(entries[..|entries| - 1], name) + (if last.name == name then [last.phone] else [])
  }

  /**
   * The attributions after call `c`: a first unanswered miss from a number
   * with no attribution is attributed to the call's employee, and a
   * connected call removes its number's attribution.
   */
  function NextEntries(entries: seq<Assignment>, globalSuccess: set<Phone>, c: Call): (r: seq<Assignment>)
    ensures forall x: Assignment :: x.phone != c.phone ==> (x in r <==> x in entries)
    ensures IsAnswered(c) ==> c.phone !in AttributedPhones(r)
    ensures IsMissed(c) && c.phone !in AttributedPhones(entries) && c.phone !in globalSuccess ==>
      Assignment(c.phone, c.userName) in r
  {
    var added :=
      if IsMissed(c) && c.phone !in AttributedPhones(entries) && c.phone !in globalSuccess
      then entries + [Assignment(c.phone, c.userName)]
      else entries;
    WithoutKeeps(added, c.phone);
    if IsAnswered(c) then Without(added, c.phone) else added
  }

  /** An employee's tally after one of their calls. */
  function NextTally(t: Tally, c: Call): Tally {
    Tally(t.totalCalls + 1,
          t.incoming + (if c.direction == Incoming then 1 else 0),
          t.missed + (if IsMissed(c) then 1 else 0),
          t.numbers + {c.phone})
  }

  /**
   * The pass's treatment of one call. Only the call's own employee and the
   * attribution of the call's own number change; a connected call leaves
   * its number unattributed.
   */
  function Step(a: Acc, c: Call): (r: Acc)
    ensures c.userName in r.emps
    ensures forall n :: n != c.userName ==> (n in r.emps <==> n in a.emps)
    ensures forall n :: n != c.userName && n in a.emps ==> r.emps[n] == a.emps[n]
    ensures forall x: Assignment :: x.phone != c.phone ==> (x in r.assignedMissed <==> x in a.assignedMissed)
    ensures IsAnswered(c) ==> c.phone !in AttributedPhones(r.assignedMissed) && c.phone in r.globalSuccess
  {
    var name := c.userName;
    Acc(a.totalCalls + 1,
        a.totalIncoming + (if c.direction == Incoming then 1 else 0),
        a.totalMissed + (if IsMissed(c) then 1 else 0),
        a.uniqueNumbers + {c.phone},
        if IsAnswered(c) then a.globalSuccess + {c.phone} else a.globalSuccess,
        NextEntries(a.assignedMissed, a.globalSuccess, c),
        if name in a.emps then a.names else a.names + [name],
        a.emps[name := NextTally(TallyIn(a.emps, name), c)])
  }

  /** The state after the pass over `calls`. */
  function Fold(calls: seq<Call>): (a: Acc)
    ensures forall n :: n in a.names <==> n in a.emps
  {
    if calls == [] then Start
    else Step(Fold(calls[..|calls| - 1]), calls[|calls| - 1])
  }

  /** The finalised record of employee `name`. */
  function Row(name: string, emps: map<string, Tally>, entries: seq<Assignment>): EmployeeStats {
    var t := TallyIn(emps, name);
    var uns := OwnedBy(entries, name);
    EmployeeStats(name, t.totalCalls, t.incoming, t.missed, |t.numbers|, |uns|, uns)
  }

  /** The finalised records of `names`, in that order. */
  function Rows(names: seq<string>, emps: map<string, Tally>, entries: seq<Assignment>): (rows: seq<EmployeeStats>)
    ensures |rows| == |names|
    ensures forall k :: 0 <= k < |names| ==> rows[k] == Row(names[k], emps, entries)
  {
    if names == [] then []
    else Rows(names[..|names| - 1], emps, entries) + [Row(names[|names| - 1], emps, entries)]
  }

  /** The finalisation pass. */
  function Finalize(a: Acc): Stats {
    Stats(a.totalCalls, a.totalIncoming, a.totalMissed,
          |a.uniqueNumbers|, |a.assignedMissed|,
          Rows(a.names, a.emps, a.assignedMissed))
  }

  /** The statistics the engine returns for the ordered calls. */
  function StatisticsOf(calls: seq<Call>): Stats {
    Finalize(Fold(calls))
  }
}
