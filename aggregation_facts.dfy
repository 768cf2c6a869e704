/**
 * Independent, declarative definitions of what the statistics engine should
 * report, and the proofs that the pass (Aggregation.Fold) computes them.
 */
module AggregationFacts {
  import opened Common
  import opened Records
  import opened Aggregation

  // ---------------------------------------------------------------------------
  // Reference definitions over the ordered calls
  // ---------------------------------------------------------------------------

  /** No element occurs twice. */
  predicate Distinct<T(==)>(s: seq<T>) {
    forall i, j :: 0 <= i < j < |s| ==> s[i] != s[j]
  }

  lemma DistinctSnoc<T>(s: seq<T>, x: T)
    requires Distinct(s) && x !in s
    ensures Distinct(s + [x])
  {
    forall i, j | 0 <= i < j < |s + [x]| ensures (s + [x])[i] != (s + [x])[j] {
      if j == |s| {
        assert (s + [x])[i] == s[i];
      }
    }
  }

  /** Number of incoming calls. */
  function CountIncoming(s: seq<Call>): nat {
    if s == [] then 0
    else CountIncoming(s[..|s| - 1]) + (if s[|s| - 1].direction == Incoming then 1 else 0)
  }

  /** Number of missed incoming calls, repeats included. */
  function CountMissed(s: seq<Call>): nat {
    if s == [] then 0
    else CountMissed(s[..|s| - 1]) + (if IsMissed(s[|s| - 1]) then 1 else 0)
  }

  /** The distinct phone numbers of the calls. */
  function Phones(s: seq<Call>): set<Phone> {
    set c | c in s :: c.phone
  }

  /** The numbers seen on a connected call. */
  function SuccessPhones(s: seq<Call>): set<Phone> {
    set c | c in s && IsAnswered(c) :: c.phone
  }

  /** Some call with number `p`, in either direction, was connected. */
  predicate Answered(s: seq<Call>, p: Phone) {
    exists c :: c in s && c.phone == p && IsAnswered(c)
  }

  /** The calls of the employee named `name`, in order. */
  function Of(s: seq<Call>, name: string): seq<Call> {
    if s == [] then []
    else Of(s[..|s| - 1], name) + (if s[|s| - 1].userName == name then [s[|s| - 1]] else [])
  }

  /** The employee names, each once, in the order of their first call. */
  function Names(s: seq<Call>): (names: seq<string>)
    ensures Distinct(names)
  {
    if s == [] then []
    else
      var front := Names(s[..|s| - 1]);
      var name := s[|s| - 1].userName;
      if name in front then front
      else DistinctSnoc(front, name); front + [name]
  }

  /** The counters the report shows for one employee, from that employee's calls. */
  function TallyOf(s: seq<Call>, name: string): Tally {
    var o := Of(s, name);
    Tally(|o|, CountIncoming(o), CountMissed(o), Phones(o))
  }

  /** The employee on the first missed call from `p`, if there is one. */
  function FirstMiss(s: seq<Call>, p: Phone): Option<string> {
    if s == [] then None
    else
      var before := FirstMiss(s[..|s| - 1], p);
      var last := s[|s| - 1];
      if before.Some? then before
      else if IsMissed(last) && last.phone == p then Some(last.userName)
      else None
  }

  /** The numbers with a missed call, each once, in the order of their first missed call. */
  function MissPhones(s: seq<Call>): (ps: seq<Phone>)
    ensures Distinct(ps)
  {
    if s == [] then []
    else
      var front := MissPhones(s[..|s| - 1]);
      var last := s[|s| - 1];
      if IsMissed(last) && last.phone !in front then DistinctSnoc(front, last.phone); front + [last.phone]
      else front
  }

  /** The numbers of `ps` that were never answered, each with the employee of its first missed call. */
  function Select(ps: seq<Phone>, s: seq<Call>): seq<Assignment> {
    if ps == [] then []
    else
      var p := ps[|ps| - 1];
      Select(ps[..|ps| - 1], s)
        + (if !Answered(s, p) && FirstMiss(s, p).Some? then [Assignment(p, FirstMiss(s, p).value)] else [])
  }

  /** The attributions that survive the pass: unanswered missed numbers, in first-miss order. */
  function Unresolved(s: seq<Call>): seq<Assignment> {
    Select(MissPhones(s), s)
  }

  // ---------------------------------------------------------------------------
  // Facts about one more call
  // ---------------------------------------------------------------------------

  lemma Snoc<T>(s: seq<T>, x: T)
    ensures (s + [x])[..|s|] == s && (s + [x])[|s|] == x && s + [x] != []
  {
  }

  lemma PhonesSnoc(s: seq<Call>, c: Call)
    ensures Phones(s + [c]) == Phones(s) + {c.phone}
    ensures SuccessPhones(s + [c]) == SuccessPhones(s) + (if IsAnswered(c) then {c.phone} else {})
  {
    assert forall x :: x in s + [c] <==> x in s || x == c;
  }

  lemma AnsweredSnoc(s: seq<Call>, c: Call, p: Phone)
    ensures Answered(s + [c], p) <==> Answered(s, p) || (c.phone == p && IsAnswered(c))
  {
    assert c in s + [c];
    if Answered(s, p) {
      var x :| x in s && x.phone == p && IsAnswered(x);
      assert x in s + [c];
    }
  }

  lemma AnsweredIsSuccessPhone(s: seq<Call>, p: Phone)
    ensures Answered(s, p) <==> p in SuccessPhones(s)
  {
  }

  // ---------------------------------------------------------------------------
  // Counters
  // ---------------------------------------------------------------------------

  /** The global counters and number sets of the pass. */
  lemma {:induction false} FoldCounters(s: seq<Call>)
    ensures Fold(s).totalCalls == |s|
    ensures Fold(s).totalIncoming == CountIncoming(s)
    ensures Fold(s).totalMissed == CountMissed(s)
    ensures Fold(s).uniqueNumbers == Phones(s)
    ensures Fold(s).globalSuccess == SuccessPhones(s)
  {
    if s != [] {
      var front, c := s[..|s| - 1], s[|s| - 1];
      assert s == front + [c];
      FoldCounters(front);
      PhonesSnoc(front, c);
    }
  }

  // ---------------------------------------------------------------------------
  // Employees
  // ---------------------------------------------------------------------------

  /** An employee is listed exactly when it has a call. */
  lemma {:induction false} NamesSpec(s: seq<Call>, name: string)
    ensures name in Names(s) <==> Of(s, name) != []
  {
    if s != [] {
      var front := s[..|s| - 1];
      NamesSpec(front, name);
    }
  }

  /** The employees of the pass, in the order of their first call. */
  lemma {:induction false} FoldNames(s: seq<Call>)
    ensures Fold(s).names == Names(s)
  {
    if s != [] {
      var front := s[..|s| - 1];
      FoldNames(front);
    }
  }

  /** One more call of `name` extends that employee's reference tally by one call. */
  lemma TallyOfSnoc(s: seq<Call>, c: Call, name: string)
    ensures TallyOf(s + [c], name) ==
      if name == c.userName then NextTally(TallyOf(s, name), c) else TallyOf(s, name)
  {
    Snoc(s, c);
    var o := Of(s, name);
    if name == c.userName {
      assert Of(s + [c], name) == o + [c];
      PhonesSnoc(o, c);
      Snoc(o, c);
    } else {
      assert Of(s + [c], name) == o;
    }
  }

  /** Each employee's counters are the global measures restricted to that employee's calls. */
  lemma {:induction false} FoldTally(s: seq<Call>, name: string)
    ensures TallyIn(Fold(s).emps, name) == TallyOf(s, name)
  {
    if s != [] {
      var front, c := s[..|s| - 1], s[|s| - 1];
      assert s == front + [c];
      FoldTally(front, name);
      TallyOfSnoc(front, c, name);
      var emps := Fold(front).emps;
      assert Fold(s).emps == emps[c.userName := NextTally(TallyIn(emps, c.userName), c)];
    }
  }

  // ---------------------------------------------------------------------------
  // Missed-call attribution
  // ---------------------------------------------------------------------------

  /** A number has a first missed call exactly when it is among the missed numbers. */
  lemma {:induction false} MissPhonesSpec(s: seq<Call>, p: Phone)
    ensures p in MissPhones(s) <==> FirstMiss(s, p).Some?
  {
    if s != [] {
      var front := s[..|s| - 1];
      MissPhonesSpec(front, p);
    }
  }

  /** The first missed call is the earliest missed incoming call from `p`, and it names the employee. */
  lemma {:induction false} FirstMissSpec(s: seq<Call>, p: Phone)
    ensures FirstMiss(s, p).None? <==> forall i :: 0 <= i < |s| ==> !(IsMissed(s[i]) && s[i].phone == p)
    ensures FirstMiss(s, p).Some? ==>
      exists i :: 0 <= i < |s| && IsMissed(s[i]) && s[i].phone == p && s[i].userName == FirstMiss(s, p).value
        && forall j :: 0 <= j < i ==> !(IsMissed(s[j]) && s[j].phone == p)
  {
    if s != [] {
      var front := s[..|s| - 1];
      FirstMissSpec(front, p);
      assert forall i :: 0 <= i < |front| ==> s[i] == front[i];
      if FirstMiss(front, p).Some? {
        var i :| 0 <= i < |front| && IsMissed(front[i]) && front[i].phone == p
          && front[i].userName == FirstMiss(front, p).value
          && forall j :: 0 <= j < i ==> !(IsMissed(front[j]) && front[j].phone == p);
        assert s[i] == front[i];
      }
    }
  }

  /** The employee credited with a missed number has calls of its own. */
  lemma {:induction false} FirstMissHasCalls(s: seq<Call>, p: Phone)
    requires FirstMiss(s, p).Some?
    ensures Of(s, FirstMiss(s, p).value) != []
  {
    var front := s[..|s| - 1];
    if FirstMiss(front, p).Some? {
      FirstMissHasCalls(front, p);
    }
  }

  /** Membership in Select: a listed number that is unanswered, with its first-miss employee. */
  lemma {:induction false} SelectMember(ps: seq<Phone>, s: seq<Call>, x: Assignment)
    ensures x in Select(ps, s) <==> x.phone in ps && !Answered(s, x.phone) && FirstMiss(s, x.phone) == Some(x.name)
  {
    if ps != [] {
      var front := ps[..|ps| - 1];
      assert ps == front + [ps[|ps| - 1]];
      SelectMember(front, s, x);
    }
  }

  /** Select depends only on what the calls say about the listed numbers. */
  lemma {:induction false} SelectFrame(ps: seq<Phone>, s: seq<Call>, s': seq<Call>)
    requires forall q :: q in ps ==> (Answered(s, q) <==> Answered(s', q)) && FirstMiss(s, q) == FirstMiss(s', q)
    ensures Select(ps, s) == Select(ps, s')
  {
    if ps != [] {
      var front := ps[..|ps| - 1];
      assert ps == front + [ps[|ps| - 1]];
      SelectFrame(front, s, s');
    }
  }

  lemma WithoutSnoc(entries: seq<Assignment>, x: Assignment, p: Phone)
    ensures Without(entries + [x], p) == Without(entries, p) + (if x.phone == p then [] else [x])
  {
    Snoc(entries, x);
  }

  /** When `p` becomes answered and nothing else changes, its attribution is removed. */
  lemma {:induction false} SelectAnswered(ps: seq<Phone>, s: seq<Call>, s': seq<Call>, p: Phone)
    requires forall q :: q in ps && q != p ==>
      (Answered(s, q) <==> Answered(s', q)) && FirstMiss(s, q) == FirstMiss(s', q)
    requires Answered(s', p)
    ensures Select(ps, s') == Without(Select(ps, s), p)
  {
    if ps != [] {
      var front, q := ps[..|ps| - 1], ps[|ps| - 1];
      assert ps == front + [q];
      SelectAnswered(front, s, s', p);
      var added := if !Answered(s, q) && FirstMiss(s, q).Some? then [Assignment(q, FirstMiss(s, q).value)] else [];
      assert Select(ps, s) == Select(front, s) + added;
      if added != [] {
        WithoutSnoc(Select(front, s), added[0], p);
        assert Select(front, s) + added == Select(front, s) + [added[0]];
      } else {
        assert Select(front, s) + added == Select(front, s);
      }
    }
  }

  /** Every attributed number is one of the listed numbers. */
  lemma AttributedInList(ps: seq<Phone>, s: seq<Call>, p: Phone)
    ensures p in AttributedPhones(Select(ps, s)) <==> p in ps && !Answered(s, p) && FirstMiss(s, p).Some?
  {
    if p in AttributedPhones(Select(ps, s)) {
      var x :| x in Select(ps, s) && x.phone == p;
      SelectMember(ps, s, x);
    }
    if p in ps && !Answered(s, p) && FirstMiss(s, p).Some? {
      SelectMember(ps, s, Assignment(p, FirstMiss(s, p).value));
    }
  }

  /** What one more call does to the first misses and the missed numbers. */
  lemma MissSnoc(s: seq<Call>, c: Call, q: Phone)
    ensures FirstMiss(s + [c], q) ==
      if FirstMiss(s, q).Some? then FirstMiss(s, q)
      else if IsMissed(c) && c.phone == q then Some(c.userName) else None
    ensures MissPhones(s + [c]) ==
      MissPhones(s) + (if IsMissed(c) && c.phone !in MissPhones(s) then [c.phone] else [])
  {
    Snoc(s, c);
  }

  /** With one more call, what the calls say about numbers other than `p` is unchanged. */
  lemma OthersUnchanged(s: seq<Call>, c: Call, p: Phone, ps: seq<Phone>)
    requires c.phone == p
    ensures forall q :: q in ps && q != p ==>
      (Answered(s, q) <==> Answered(s + [c], q)) && FirstMiss(s, q) == FirstMiss(s + [c], q)
  {
    forall q | q in ps && q != p
      ensures (Answered(s, q) <==> Answered(s + [c], q)) && FirstMiss(s, q) == FirstMiss(s + [c], q)
    {
      AnsweredSnoc(s, c, q);
      MissSnoc(s, c, q);
    }
  }

  /** A repeated miss from a number that already had one changes no attribution. */
  lemma StepRepeatMiss(entries: seq<Assignment>, success: set<Phone>, s: seq<Call>, c: Call)
    requires entries == Unresolved(s) && success == SuccessPhones(s)
    requires IsMissed(c) && FirstMiss(s, c.phone).Some?
    ensures NextEntries(entries, success, c) == Unresolved(s + [c])
  {
    var p := c.phone;
    MissSnoc(s, c, p);
    MissPhonesSpec(s, p);
    AttributedInList(MissPhones(s), s, p);
    AnsweredSnoc(s, c, p);
    OthersUnchanged(s, c, p, MissPhones(s));
    SelectFrame(MissPhones(s), s, s + [c]);
    assert MissPhones(s + [c]) == MissPhones(s);
    assert p in AttributedPhones(entries) || p in success;
    assert NextEntries(entries, success, c) == entries;
  }

  /** The attribution a first miss adds: none when the number was already answered. */
  function NewMissEntry(s: seq<Call>, c: Call): seq<Assignment> {
    if c.phone in SuccessPhones(s) then [] else [Assignment(c.phone, c.userName)]
  }

  /** The pass appends NewMissEntry on a first miss. */
  lemma NewMissStep(entries: seq<Assignment>, success: set<Phone>, s: seq<Call>, c: Call)
    requires entries == Unresolved(s) && success == SuccessPhones(s)
    requires IsMissed(c) && FirstMiss(s, c.phone).None?
    ensures NextEntries(entries, success, c) == entries + NewMissEntry(s, c)
  {
    MissPhonesSpec(s, c.phone);
    AttributedInList(MissPhones(s), s, c.phone);
    assert c.phone !in AttributedPhones(entries);
  }

  /** The reference attributions gain NewMissEntry on a first miss. */
  lemma NewMissUnresolved(s: seq<Call>, c: Call)
    requires IsMissed(c) && FirstMiss(s, c.phone).None?
    ensures Unresolved(s + [c]) == Unresolved(s) + NewMissEntry(s, c)
  {
    var p := c.phone;
    var mp := MissPhones(s);
    MissPhonesSpec(s, p);
    MissSnoc(s, c, p);
    AnsweredSnoc(s, c, p);
    AnsweredIsSuccessPhone(s, p);
    OthersUnchanged(s, c, p, mp);
    SelectFrame(mp, s, s + [c]);
    assert MissPhones(s + [c]) == mp + [p];
    Snoc(mp, p);
    assert Select(mp + [p], s + [c]) == Select(mp, s + [c]) + NewMissEntry(s, c);
  }

  /** The first miss from a number not yet answered attributes it to this call's employee. */
  lemma StepNewMiss(entries: seq<Assignment>, success: set<Phone>, s: seq<Call>, c: Call)
    requires entries == Unresolved(s) && success == SuccessPhones(s)
    requires IsMissed(c) && FirstMiss(s, c.phone).None?
    ensures NextEntries(entries, success, c) == Unresolved(s + [c])
  {
    NewMissStep(entries, success, s, c);
    NewMissUnresolved(s, c);
  }

  /** A connected call removes its number's attribution. */
  lemma StepAnswered(entries: seq<Assignment>, success: set<Phone>, s: seq<Call>, c: Call)
    requires entries == Unresolved(s) && success == SuccessPhones(s)
    requires IsAnswered(c)
    ensures NextEntries(entries, success, c) == Unresolved(s + [c])
  {
    var p := c.phone;
    MissSnoc(s, c, p);
    AnsweredSnoc(s, c, p);
    OthersUnchanged(s, c, p, MissPhones(s));
    SelectAnswered(MissPhones(s), s, s + [c], p);
    assert MissPhones(s + [c]) == MissPhones(s);
    assert NextEntries(entries, success, c) == Without(entries, p);
  }

  /** Any other call leaves the attributions alone. */
  lemma StepOther(entries: seq<Assignment>, success: set<Phone>, s: seq<Call>, c: Call)
    requires entries == Unresolved(s) && success == SuccessPhones(s)
    requires !IsMissed(c) && !IsAnswered(c)
    ensures NextEntries(entries, success, c) == Unresolved(s + [c])
  {
    var p := c.phone;
    MissSnoc(s, c, p);
    AnsweredSnoc(s, c, p);
    OthersUnchanged(s, c, p, MissPhones(s));
    SelectFrame(MissPhones(s), s, s + [c]);
    assert MissPhones(s + [c]) == MissPhones(s);
    assert NextEntries(entries, success, c) == entries;
  }

  /**
   * The pass keeps, in insertion order, exactly the attributions of Unresolved:
   * the first missed call wins, and any connected call cancels the number for good.
   */
  lemma {:induction false} FoldEntries(s: seq<Call>)
    ensures Fold(s).assignedMissed == Unresolved(s)
  {
    if s != [] {
      var front, c := s[..|s| - 1], s[|s| - 1];
      assert s == front + [c];
      FoldEntries(front);
      FoldCounters(front);
      assert Fold(s).assignedMissed == NextEntries(Fold(front).assignedMissed, Fold(front).globalSuccess, c);
      if IsMissed(c) {
        if FirstMiss(front, c.phone).Some? {
          StepRepeatMiss(Fold(front).assignedMissed, Fold(front).globalSuccess, front, c);
        } else {
          StepNewMiss(Fold(front).assignedMissed, Fold(front).globalSuccess, front, c);
        }
      } else if IsAnswered(c) {
        StepAnswered(Fold(front).assignedMissed, Fold(front).globalSuccess, front, c);
      } else {
        StepOther(Fold(front).assignedMissed, Fold(front).globalSuccess, front, c);
      }
    }
  }

  // ---------------------------------------------------------------------------
  // The finalised statistics
  // ---------------------------------------------------------------------------

  /** Sum of the employees' unanswered counts. */
  function SumUnanswered(rows: seq<EmployeeStats>): nat {
    if rows == [] then 0
    else SumUnanswered(rows[..|rows| - 1]) + rows[|rows| - 1].unansweredCount
  }

  /** Sum over `names` of the number of attributions each owns. */
  function CountOwned(names: seq<string>, entries: seq<Assignment>): nat {
    if names == [] then 0
    else CountOwned(names[..|names| - 1], entries) + |OwnedBy(entries, names[|names| - 1])|
  }

  lemma {:induction false} OwnedByMember(entries: seq<Assignment>, name: string, p: Phone)
    ensures p in OwnedBy(entries, name) <==> Assignment(p, name) in entries
  {
    if entries != [] {
      var front := entries[..|entries| - 1];
      assert entries == front + [entries[|entries| - 1]];
      OwnedByMember(front, name, p);
    }
  }

  /** No two attributions share a phone. */
  predicate DistinctPhones(entries: seq<Assignment>) {
    forall i, j :: 0 <= i < j < |entries| ==> entries[i].phone != entries[j].phone
  }

  lemma {:induction false} OwnedByDistinct(entries: seq<Assignment>, name: string)
    requires DistinctPhones(entries)
    ensures Distinct(OwnedBy(entries, name))
  {
    if entries != [] {
      var front, x := entries[..|entries| - 1], entries[|entries| - 1];
      assert entries == front + [x];
      OwnedByDistinct(front, name);
      forall p | p in OwnedBy(front, name) ensures p != x.phone {
        OwnedByMember(front, name, p);
        var i :| 0 <= i < |front| && front[i] == Assignment(p, name);
        assert entries[i].phone == p;
      }
      if x.name == name {
        DistinctSnoc(OwnedBy(front, name), x.phone);
      } else {
        assert OwnedBy(entries, name) == OwnedBy(front, name);
      }
    }
  }

  lemma {:induction false} SelectDistinct(ps: seq<Phone>, s: seq<Call>)
    requires Distinct(ps)
    ensures DistinctPhones(Select(ps, s))
  {
    if ps != [] {
      var front, q := ps[..|ps| - 1], ps[|ps| - 1];
      assert ps == front + [q];
      SelectDistinct(front, s);
      forall x | x in Select(front, s) ensures x.phone != q {
        SelectMember(front, s, x);
      }
    }
  }

  lemma {:induction false} CountOwnedSnoc(names: seq<string>, entries: seq<Assignment>, x: Assignment)
    requires Distinct(names)
    ensures CountOwned(names, entries + [x]) == CountOwned(names, entries) + (if x.name in names then 1 else 0)
  {
    if names != [] {
      var front, n := names[..|names| - 1], names[|names| - 1];
      assert names == front + [n];
      CountOwnedSnoc(front, entries, x);
      Snoc(entries, x);
      assert n !in front;
    }
  }

  /** When every owner is listed once, the owned lists together hold every attribution. */
  lemma {:induction false} CountOwnedAll(names: seq<string>, entries: seq<Assignment>)
    requires Distinct(names)
    requires forall x :: x in entries ==> x.name in names
    ensures CountOwned(names, entries) == |entries|
  {
    if entries == [] {
      CountOwnedNone(names);
    } else {
      var front, x := entries[..|entries| - 1], entries[|entries| - 1];
      assert entries == front + [x];
      CountOwnedAll(names, front);
      CountOwnedSnoc(names, front, x);
    }
  }

  lemma {:induction false} CountOwnedNone(names: seq<string>)
    ensures CountOwned(names, []) == 0
  {
    if names != [] {
      CountOwnedNone(names[..|names| - 1]);
    }
  }

  lemma {:induction false} SumRows(names: seq<string>, emps: map<string, Tally>, entries: seq<Assignment>)
    ensures SumUnanswered(Rows(names, emps, entries)) == CountOwned(names, entries)
  {
    if names != [] {
      var front := names[..|names| - 1];
      SumRows(front, emps, entries);
      Snoc(Rows(front, emps, entries), Row(names[|names| - 1], emps, entries));
    }
  }

  /** The global counters: all calls, incoming calls, missed calls with repeats, distinct numbers. */
  lemma StatisticsCounters(calls: seq<Call>)
    ensures var st := StatisticsOf(calls);
      && st.totalCalls == |calls|
      && st.totalIncoming == CountIncoming(calls)
      && st.totalMissed == CountMissed(calls)
      && st.overallUniqueCount == |Phones(calls)|
  {
    FoldCounters(calls);
  }

  /**
   * One record per distinct employee name, in the order of the name's first
   * call, each with the global measures restricted to that name's calls.
   */
  lemma StatisticsEmployees(calls: seq<Call>)
    ensures var st := StatisticsOf(calls);
      && |st.employees| == |Names(calls)|
      && forall k :: 0 <= k < |st.employees| ==>
           var e := st.employees[k];
           && e.name == Names(calls)[k]
           && e.totalCalls == |Of(calls, e.name)|
           && e.incoming == CountIncoming(Of(calls, e.name))
           && e.missed == CountMissed(Of(calls, e.name))
           && e.uniqueNumbers == |Phones(Of(calls, e.name))|
           && e.unansweredCount == |e.unansweredNumbers|
  {
    FoldNames(calls);
    forall n ensures TallyIn(Fold(calls).emps, n) == TallyOf(calls, n) {
      FoldTally(calls, n);
    }
  }

  /**
   * A number is in an employee's unanswered list exactly when no call from it
   * was connected and that employee took the first missed call from it.
   */
  lemma UnansweredSpec(calls: seq<Call>, k: nat, p: Phone)
    requires k < |StatisticsOf(calls).employees|
    ensures var e := StatisticsOf(calls).employees[k];
      p in e.unansweredNumbers <==> !Answered(calls, p) && FirstMiss(calls, p) == Some(e.name)
  {
    var e := StatisticsOf(calls).employees[k];
    FoldEntries(calls);
    OwnedByMember(Unresolved(calls), e.name, p);
    SelectMember(MissPhones(calls), calls, Assignment(p, e.name));
    MissPhonesSpec(calls, p);
  }

  /** A number with any connected call, in either direction, is in nobody's unanswered list. */
  lemma AnsweredNotUnanswered(calls: seq<Call>, p: Phone)
    requires Answered(calls, p)
    ensures forall e :: e in StatisticsOf(calls).employees ==> p !in e.unansweredNumbers
  {
    forall e | e in StatisticsOf(calls).employees ensures p !in e.unansweredNumbers {
      var k :| 0 <= k < |StatisticsOf(calls).employees| && StatisticsOf(calls).employees[k] == e;
      UnansweredSpec(calls, k, p);
    }
  }

  /** A number is in at most one employee's unanswered list, and at most once there. */
  lemma SingleAttribution(calls: seq<Call>, p: Phone, k1: nat, k2: nat)
    requires k1 < |StatisticsOf(calls).employees| && k2 < |StatisticsOf(calls).employees|
    requires p in StatisticsOf(calls).employees[k1].unansweredNumbers
    requires p in StatisticsOf(calls).employees[k2].unansweredNumbers
    ensures k1 == k2
  {
    UnansweredSpec(calls, k1, p);
    UnansweredSpec(calls, k2, p);
    StatisticsEmployees(calls);
    FoldNames(calls);
  }

  /** No number is listed twice in one employee's unanswered list. */
  lemma UnansweredNoRepeats(calls: seq<Call>, k: nat)
    requires k < |StatisticsOf(calls).employees|
    ensures Distinct(StatisticsOf(calls).employees[k].unansweredNumbers)
  {
    FoldEntries(calls);
    SelectDistinct(MissPhones(calls), calls);
    OwnedByDistinct(Unresolved(calls), StatisticsOf(calls).employees[k].name);
  }

  /** Everything the program promises about its statistics, for a record equal to StatisticsOf(calls). */
  lemma StatisticsSpec(calls: seq<Call>, stats: Stats)
    requires stats == StatisticsOf(calls)
    ensures stats.totalCalls == |calls|
    ensures stats.totalIncoming == CountIncoming(calls)
    ensures stats.totalMissed == CountMissed(calls)
    ensures stats.overallUniqueCount == |Phones(calls)|
    ensures stats.overallUnansweredCount == SumUnanswered(stats.employees)
    ensures |stats.employees| == |Names(calls)|
    ensures forall k :: 0 <= k < |stats.employees| ==> stats.employees[k].name == Names(calls)[k]
    ensures UnansweredExactly(calls, stats.employees)
  {
    StatisticsCounters(calls);
    StatisticsEmployees(calls);
    UnansweredTotal(calls);
    UnansweredAll(calls, stats);
  }

  /**
   * Each record lists exactly the phones that were never answered and whose
   * first unresolved miss went to that record's employee.
   */
  ghost predicate UnansweredExactly(calls: seq<Call>, employees: seq<EmployeeStats>) {
    forall k, p :: 0 <= k < |employees| ==>
      (p in employees[k].unansweredNumbers <==>
         !Answered(calls, p) && FirstMiss(calls, p) == Some(employees[k].name))
  }

  /** The unanswered iff, for every employee record and every phone at once. */
  lemma UnansweredAll(calls: seq<Call>, st: Stats)
    requires st == StatisticsOf(calls)
    ensures UnansweredExactly(calls, st.employees)
  {
    forall k, p | 0 <= k < |st.employees|
      ensures p in st.employees[k].unansweredNumbers <==>
        !Answered(calls, p) && FirstMiss(calls, p) == Some(st.employees[k].name)
    {
      UnansweredSpec(calls, k, p);
    }
  }

  /** The overall unanswered count is the sum of the employees' unanswered counts. */
  lemma UnansweredTotal(calls: seq<Call>)
    ensures StatisticsOf(calls).overallUnansweredCount == SumUnanswered(StatisticsOf(calls).employees)
  {
    var a := Fold(calls);
    FoldEntries(calls);
    FoldNames(calls);
    forall x | x in a.assignedMissed ensures x.name in a.names {
      SelectMember(MissPhones(calls), calls, x);
      FirstMissHasCalls(calls, x.phone);
      NamesSpec(calls, x.name);
    }
    CountOwnedAll(a.names, a.assignedMissed);
    SumRows(a.names, a.emps, a.assignedMissed);
  }
}
