/**
 * The statistics engine as the program runs it: one pass over the ordered
 * calls that updates counters and maps in place, then a finalisation loop
 * that builds each employee's unanswered list.
 */
module StatisticsEngine {
  import opened Common
  import opened Records
  import opened Aggregation
  import opened AggregationFacts

  method ComputeStatistics(calls: seq<Call>) returns (stats: Stats)
    ensures stats == StatisticsOf(calls)
    ensures stats.totalCalls == |calls|
    ensures stats.totalIncoming == CountIncoming(calls)
    ensures stats.totalMissed == CountMissed(calls)
    ensures stats.overallUniqueCount == |Phones(calls)|
    ensures stats.overallUnansweredCount == SumUnanswered(stats.employees)
    ensures |stats.employees| == |Names(calls)|
    ensures forall k :: 0 <= k < |stats.employees| ==> stats.employees[k].name == Names(calls)[k]
    ensures UnansweredExactly(calls, stats.employees)
  {
    var acc := Start;
    var i := 0;
    while i < |calls|
      invariant 0 <= i <= |calls|
      invariant acc == Fold(calls[..i])
    {
      var call := calls[i];
      assert calls[..i + 1] == calls[..i] + [call];
      acc := RecordCall(acc, call);
      i := i + 1;
    }
    assert calls[..|calls|] == calls;

    var employees := FinalizeEmployees(acc.names, acc.emps, acc.assignedMissed);
    stats := Stats(acc.totalCalls, acc.totalIncoming, acc.totalMissed,
                   |acc.uniqueNumbers|, |acc.assignedMissed|, employees);
    assert stats == StatisticsOf(calls);
    StatisticsSpec(calls, stats);
  }

  /** The body of the pass: records one call in the counters and maps of the state. */
  method RecordCall(a: Acc, call: Call) returns (b: Acc)
    ensures b == Step(a, call)
  {
    var totalCalls, totalIncoming, totalMissed := a.totalCalls, a.totalIncoming, a.totalMissed;
    var uniqueNumbers, globalSuccess, assignedMissed := a.uniqueNumbers, a.globalSuccess, a.assignedMissed;
    var names, emps := a.names, a.emps;
    var phone, code, name := call.phone, call.failedCode, call.userName;
    if name !in emps {
      names := names + [name];
      emps := emps[name := NewTally];
    }
    var s := emps[name];
    totalCalls := totalCalls + 1;
    if call.direction == Incoming {
      totalIncoming := totalIncoming + 1;
      if code == Some(MissedCode) {
        totalMissed := totalMissed + 1;
      }
    }
    uniqueNumbers := uniqueNumbers + {phone};
    s := s.(totalCalls := s.totalCalls + 1);
    if call.direction == Incoming {
      s := s.(incoming := s.incoming + 1);
      if code == Some(MissedCode) {
        s := s.(missed := s.missed + 1);
        if phone !in AttributedPhones(assignedMissed) && phone !in globalSuccess {
          assignedMissed := assignedMissed + [Assignment(phone, name)];
        }
      }
    }
    s := s.(numbers := s.numbers + {phone});
    emps := emps[name := s];
    if code == Some(SuccessCode) {
      globalSuccess := globalSuccess + {phone};
      assignedMissed := Without(assignedMissed, phone);
    }
    b := Acc(totalCalls, totalIncoming, totalMissed, uniqueNumbers, globalSuccess, assignedMissed, names, emps);
  }

  /**
   * The finalisation pass: for every employee, in order of first appearance,
   * the counters and the phones of the unresolved misses attributed to them.
   */
  method FinalizeEmployees(names: seq<string>, emps: map<string, Tally>, entries: seq<Assignment>)
    returns (employees: seq<EmployeeStats>)
    requires forall n :: n in names ==> n in emps
    ensures employees == Rows(names, emps, entries)
  {
    employees := [];
    var k := 0;
    while k < |names|
      invariant 0 <= k <= |names|
      invariant employees == Rows(names[..k], emps, entries)
    {
      var n := names[k];
      assert names[..k + 1] == names[..k] + [n];
      var s := emps[n];
      var uns: seq<Phone> := [];
      var j := 0;
      while j < |entries|
        invariant 0 <= j <= |entries|
        invariant uns == OwnedBy(entries[..j], n)
      {
        assert entries[..j + 1] == entries[..j] + [entries[j]];
        if entries[j].name == n {
          uns := uns + [entries[j].phone];
        }
        j := j + 1;
      }
      assert entries[..j] == entries;
      employees := employees + [EmployeeStats(n, s.totalCalls, s.incoming, s.missed, |s.numbers|, |uns|, uns)];
      k := k + 1;
    }
    assert names[..k] == names;
  }
}
