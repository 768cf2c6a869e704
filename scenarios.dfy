/**
 * A worked day under the attribution policy: phone X is missed by A and
 * later answered by B, phone Y is missed by A and never answered.
 */
module Scenarios {
  import opened Common
  import opened Records
  import opened Aggregation
  import Fetching

  const X: Phone := "79160000001"
  const Y: Phone := "79160000002"

  function MissedBy(name: string, phone: Phone, at: string): Call {
    Call("1", "10", name, "74950000000", phone, 0, at, Incoming, Some(MissedCode))
  }

  function AnsweredBy(name: string, phone: Phone, at: string): Call {
    Call("2", "20", name, "74950000000", phone, 60, at, Incoming, Some(SuccessCode))
  }

  const Day: seq<Call> := [
    MissedBy("A", X, "2024-03-01T09:00:00"),
    AnsweredBy("B", X, "2024-03-01T09:05:00"),
    MissedBy("A", Y, "2024-03-01T10:00:00")
  ]

  /** The state after each call of the day. */
  const AfterFirst := Acc(1, 1, 1, {X}, {}, [Assignment(X, "A")], ["A"],
                          map["A" := Tally(1, 1, 1, {X})])
  const AfterSecond := Acc(2, 2, 1, {X}, {X}, [], ["A", "B"],
                           map["A" := Tally(1, 1, 1, {X}), "B" := Tally(1, 1, 0, {X})])
  const AfterThird := Acc(3, 3, 2, {X, Y}, {X}, [Assignment(Y, "A")], ["A", "B"],
                          map["A" := Tally(2, 2, 2, {X, Y}), "B" := Tally(1, 1, 0, {X})])

  lemma FirstStep()
    ensures Step(Start, Day[0]) == AfterFirst
  {
    var a := Step(Start, Day[0]);
    assert a.uniqueNumbers == {X};
    assert a.emps == map["A" := Tally(1, 1, 1, {X})];
  }

  lemma SecondStep()
    ensures Step(AfterFirst, Day[1]) == AfterSecond
  {
    assert [Assignment(X, "A")][..0] == [];
    assert Without([Assignment(X, "A")], X) == [];
    var a := Step(AfterFirst, Day[1]);
    assert a.globalSuccess == {X};
    assert a.emps.Keys == {"A", "B"};
    assert a.emps == AfterSecond.emps;
  }

  lemma ThirdStep()
    ensures Step(AfterSecond, Day[2]) == AfterThird
  {
    assert Y !in AttributedPhones([]);
    var a := Step(AfterSecond, Day[2]);
    assert a.uniqueNumbers == {X, Y};
    assert a.emps.Keys == {"A", "B"};
    assert a.emps["A"] == Tally(2, 2, 2, {X, Y});
    assert a.emps == AfterThird.emps;
  }

  lemma DayFold()
    ensures Fold(Day) == AfterThird
  {
    FirstStep();
    SecondStep();
    ThirdStep();
    assert Day[..1][..0] == [];
    assert Fold(Day[..1]) == AfterFirst;
    assert Day[..2][..1] == Day[..1];
    assert Fold(Day[..2]) == AfterSecond;
    assert Day[..3] == Day && Day[..2] == Day[..3][..2];
  }

  /** X is resolved by B's answer; only Y stays unanswered, and it stays with A. */
  lemma DayStatistics()
    ensures var st := StatisticsOf(Day);
      && st.totalCalls == 3 && st.totalIncoming == 3 && st.totalMissed == 2
      && st.overallUniqueCount == 2 && st.overallUnansweredCount == 1
      && |st.employees| == 2
      && st.employees[0].name == "A" && st.employees[0].missed == 2
      && st.employees[0].unansweredNumbers == [Y]
      && st.employees[1].name == "B" && st.employees[1].missed == 0
      && st.employees[1].unansweredNumbers == []
  {
    DayFold();
    var st := StatisticsOf(Day);
    var entries := [Assignment(Y, "A")];
    assert st == Finalize(AfterThird);
    assert st.employees[0] == Row("A", AfterThird.emps, entries);
    assert st.employees[1] == Row("B", AfterThird.emps, entries);
    assert entries[..0] == [];
    assert OwnedBy(entries, "A") == [Y];
    assert OwnedBy(entries, "B") == [];
    assert |{X, Y}| == 2;
  }

  const Late: seq<Call> := [AnsweredBy("B", X, "2024-03-01T09:00:00"), MissedBy("A", X, "2024-03-01T11:00:00")]

  const LateFirst := Acc(1, 1, 0, {X}, {X}, [], ["B"], map["B" := Tally(1, 1, 0, {X})])
  const LateSecond := Acc(2, 2, 1, {X}, {X}, [], ["B", "A"],
                          map["B" := Tally(1, 1, 0, {X}), "A" := Tally(1, 1, 1, {X})])

  lemma LateFold()
    ensures Fold(Late) == LateSecond
  {
    var a1 := Step(Start, Late[0]);
    assert {} + {X} == {X};
    assert NextTally(NewTally, Late[0]) == Tally(1, 1, 0, {X});
    assert a1.emps == LateFirst.emps;
    assert a1 == LateFirst;
    var a2 := Step(LateFirst, Late[1]);
    assert a2.emps.Keys == {"A", "B"};
    assert a2.emps == LateSecond.emps;
    assert a2 == LateSecond;
    assert Late[..1][..0] == [];
    assert Fold(Late[..1]) == LateFirst;
    assert Late[..2] == Late && Late[..1] == Late[..2][..1];
  }

  /** A miss after the phone was already answered that day is never attributed. */
  lemma AnsweredBeforeMiss()
    ensures var st := StatisticsOf(Late);
      && st.totalMissed == 1 && st.overallUnansweredCount == 0
      && |st.employees| == 2
      && st.employees[0].name == "B" && st.employees[1].name == "A"
      && st.employees[1].missed == 1 && st.employees[1].unansweredNumbers == []
  {
    LateFold();
    var st := StatisticsOf(Late);
    assert st == Finalize(LateSecond);
    assert st.employees[1] == Row("A", LateSecond.emps, []);
  }

  /** Two pages, the second without a next cursor: their records in request order. */
  function TwoPages(cursor: int): Fetching.Response {
    if cursor == 0 then Fetching.Response(None, "", [Raw("1")], Some(50))
    else Fetching.Response(None, "", [Raw("2"), Raw("3")], None)
  }

  function Raw(id: string): RawCall {
    RawCall(id, Some("10"), "74950000000", "+7 916 000-00-01", 0, "2024-03-01T09:00:00", 2, Some("200"))
  }

  lemma TwoPagesFetched()
    ensures Fetching.StopsWithin(TwoPages, 0, 2)
    ensures Fetching.Fetched(TwoPages, 0, 2) == Ok([Raw("1"), Raw("2"), Raw("3")])
  {
    assert Fetching.Fetched(TwoPages, 50, 1) == Ok([Raw("2"), Raw("3")]);
    assert [Raw("1")] + [Raw("2"), Raw("3")] == [Raw("1"), Raw("2"), Raw("3")];
  }

  /** The second page is an error: the whole fetch fails with its description. */
  function FailingSecondPage(cursor: int): Fetching.Response {
    if cursor == 0 then Fetching.Response(None, "", [Raw("1")], Some(50))
    else Fetching.Response(Some("QUERY_LIMIT_EXCEEDED"), "Too many requests", [], None)
  }

  lemma FailingSecondPageFetched()
    ensures Fetching.StopsWithin(FailingSecondPage, 0, 2)
    ensures Fetching.Fetched(FailingSecondPage, 0, 2) == Err("Error fetching calls: Too many requests")
  {
    var failed := FailingSecondPage(50);
    assert Fetching.FetchError(failed) == "Error fetching calls: Too many requests";
    assert Fetching.Fetched(FailingSecondPage, 50, 1) == Err(Fetching.FetchError(failed));
    assert Fetching.NextCursor(FailingSecondPage(0)) == 50;
  }
}
