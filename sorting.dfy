/**
 * The stable sort of attributed calls by start date, compared with
 * `strcmp`. The model is an insertion sort; any stable sort gives the same
 * result (SortedStableUnique).
 */
module Sorting {
  import opened Records
  import opened StrCmp

  /** Non-decreasing by start date. */
  predicate SortedByStart(s: seq<Call>) {
    forall i, j :: 0 <= i < j < |s| ==> LexLe(s[i].startDate, s[j].startDate)
  }

  /** The calls of `s` that start at `date`, in their order in `s`. */
  function WithStart(s: seq<Call>, date: string): seq<Call> {
    if s == [] then []
    else (if s[0].startDate == date then [s[0]] else []) + WithStart(s[1..], date)
  }

  lemma {:induction false} WithStartAppend(a: seq<Call>, b: seq<Call>, date: string)
    ensures WithStart(a + b, date) == WithStart(a, date) + WithStart(b, date)
  {
    if a == [] {
      assert a + b == b;
    } else {
      assert (a + b)[1..] == a[1..] + b;
      WithStartAppend(a[1..], b, date);
    }
  }

  /** Places `c` after every call of `t` that starts no later than it, scanning from the end. */
  function Insert(t: seq<Call>, c: Call): (r: seq<Call>)
    ensures multiset(r) == multiset(t) + multiset{c}
  {
    if t == [] then [c]
    else if LexLe(t[|t| - 1].startDate, c.startDate) then t + [c]
    else
      assert t == t[..|t| - 1] + [t[|t| - 1]];
      Insert(t[..|t| - 1], c) + [t[|t| - 1]]
  }

  /** Appending a call that starts no earlier than every call keeps a sequence sorted. */
  lemma SortedSnoc(s: seq<Call>, x: Call)
    requires SortedByStart(s)
    requires forall y :: y in multiset(s) ==> LexLe(y.startDate, x.startDate)
    ensures SortedByStart(s + [x])
  {
    forall i, j | 0 <= i < j < |s + [x]|
      ensures LexLe((s + [x])[i].startDate, (s + [x])[j].startDate)
    {
      if j == |s| {
        assert s[i] in multiset(s);
      }
    }
  }

  /** Inserting into a sorted sequence keeps it sorted. */
  lemma {:induction false} InsertSorted(t: seq<Call>, c: Call)
    requires SortedByStart(t)
    ensures SortedByStart(Insert(t, c))
  {
    if t != [] {
      var last := t[|t| - 1];
      var front := t[..|t| - 1];
      assert t == front + [last];
      if LexLe(last.startDate, c.startDate) {
        forall y | y in multiset(t) ensures LexLe(y.startDate, c.startDate) {
          var i :| 0 <= i < |t| && t[i] == y;
          if i < |t| - 1 {
            LexLeTransitive(y.startDate, last.startDate, c.startDate);
          }
        }
        SortedSnoc(t, c);
      } else {
        InsertSorted(front, c);
        LexLeTotal(last.startDate, c.startDate);
        forall y | y in multiset(Insert(front, c)) ensures LexLe(y.startDate, last.startDate) {
          if y != c {
            assert y in multiset(front);
            var i :| 0 <= i < |front| && front[i] == y;
            assert t[i] == y;
          }
        }
        SortedSnoc(Insert(front, c), last);
      }
    }
  }

  /** The stable sort by start date (insertion sort from the left). */
  function SortByStart(s: seq<Call>): (r: seq<Call>)
    ensures SortedByStart(r)
    ensures multiset(r) == multiset(s)
  {
    if s == [] then []
    else
      assert s == s[..|s| - 1] + [s[|s| - 1]];
      var sorted := SortByStart(s[..|s| - 1]);
      InsertSorted(sorted, s[|s| - 1]);
      Insert(sorted, s[|s| - 1])
  }

  lemma SingleWithStart(c: Call, date: string)
    ensures WithStart([c], date) == if c.startDate == date then [c] else []
  {
    assert [c][1..] == [];
  }

  /** Inserting keeps the order among calls with the same start date; `c` goes after them. */
  lemma {:induction false} InsertStable(t: seq<Call>, c: Call, date: string)
    ensures WithStart(Insert(t, c), date) == WithStart(t, date) + WithStart([c], date)
  {
    SingleWithStart(c, date);
    if t != [] {
      var last := t[|t| - 1];
      var front := t[..|t| - 1];
      assert t == front + [last];
      if LexLe(last.startDate, c.startDate) {
        WithStartAppend(t, [c], date);
      } else {
        InsertStable(front, c, date);
        WithStartAppend(Insert(front, c), [last], date);
        WithStartAppend(front, [last], date);
        SingleWithStart(last, date);
        SwapDistinctDates(WithStart(front, date), last, c, date);
      }
    }
  }

  /** Calls with different start dates cannot both be kept by one date filter. */
  lemma SwapDistinctDates(w: seq<Call>, last: Call, c: Call, date: string)
    requires !LexLe(last.startDate, c.startDate)
    ensures w + WithStart([c], date) + WithStart([last], date) == w + WithStart([last], date) + WithStart([c], date)
  {
    SingleWithStart(c, date);
    SingleWithStart(last, date);
    if last.startDate == c.startDate {
      CompareAntisymmetric(c.startDate, c.startDate);
    }
  }

  /** The sort is stable: the calls sharing any one start date keep their input order. */
  lemma {:induction false} SortStable(s: seq<Call>, date: string)
    ensures WithStart(SortByStart(s), date) == WithStart(s, date)
  {
    if s != [] {
      var front := s[..|s| - 1];
      assert s == front + [s[|s| - 1]];
      SortStable(front, date);
      InsertStable(SortByStart(front), s[|s| - 1], date);
      WithStartAppend(front, [s[|s| - 1]], date);
    }
  }

  lemma {:induction false} WithStartMember(s: seq<Call>, i: nat)
    requires i < |s|
    ensures s[i] in WithStart(s, s[i].startDate)
  {
    if i > 0 {
      WithStartMember(s[1..], i - 1);
    }
  }

  lemma {:induction false} WithStartOnly(s: seq<Call>, date: string, x: Call)
    requires x in WithStart(s, date)
    ensures x in s && x.startDate == date
  {
    if s != [] && x !in (if s[0].startDate == date then [s[0]] else []) {
      WithStartOnly(s[1..], date, x);
    }
  }

  /** In a sorted sequence the first call starts no later than any call of it. */
  lemma FirstStartsFirst(s: seq<Call>, date: string, x: Call)
    requires SortedByStart(s) && s != []
    requires x in WithStart(s, date)
    ensures LexLe(s[0].startDate, date)
  {
    WithStartOnly(s, date, x);
    var j :| 0 <= j < |s| && s[j] == x;
    if j == 0 {
      CompareAntisymmetric(date, date);
    }
  }

  /** The first call of `a` also occurs in `b`, so `b` starts no later than it. */
  lemma HeadNotBefore(a: seq<Call>, b: seq<Call>)
    requires SortedByStart(b) && a != [] && b != []
    requires WithStart(a, a[0].startDate) == WithStart(b, a[0].startDate)
    ensures LexLe(b[0].startDate, a[0].startDate)
  {
    WithStartMember(a, 0);
    FirstStartsFirst(b, a[0].startDate, a[0]);
  }

  /** Two sorted sequences with the same calls per start date begin with the same call. */
  lemma SameHead(a: seq<Call>, b: seq<Call>)
    requires SortedByStart(a) && SortedByStart(b) && a != [] && b != []
    requires forall date :: WithStart(a, date) == WithStart(b, date)
    ensures a[0] == b[0]
  {
    var ka, kb := a[0].startDate, b[0].startDate;
    HeadNotBefore(a, b);
    HeadNotBefore(b, a);
    LexLeAntisymmetric(ka, kb);
    var w := WithStart(a, ka);
    assert w == WithStart(b, ka);
    assert w == [a[0]] + WithStart(a[1..], ka);
    assert w == [b[0]] + WithStart(b[1..], ka);
    assert w[0] == a[0] && w[0] == b[0];
  }

  /** Dropping the same first call from both keeps them agreeing per start date. */
  lemma SameTails(a: seq<Call>, b: seq<Call>, date: string)
    requires a != [] && b != [] && a[0] == b[0]
    requires WithStart(a, date) == WithStart(b, date)
    ensures WithStart(a[1..], date) == WithStart(b[1..], date)
  {
    var pa, pb := WithStart(a[1..], date), WithStart(b[1..], date);
    var head := if a[0].startDate == date then [a[0]] else [];
    assert WithStart(a, date) == head + pa;
    assert WithStart(b, date) == head + pb;
    assert pa == (head + pa)[|head|..] == (head + pb)[|head|..] == pb;
  }

  /**
   * A stable sorted arrangement is unique: two sorted sequences that agree on
   * the calls of every start date are equal. So `usort`, being stable, returns
   * exactly SortByStart.
   */
  lemma {:induction false} SortedStableUnique(a: seq<Call>, b: seq<Call>)
    requires SortedByStart(a) && SortedByStart(b)
    requires forall date :: WithStart(a, date) == WithStart(b, date)
    ensures a == b
  {
    if a == [] || b == [] {
      if a != [] {
        WithStartMember(a, 0);
      } else if b != [] {
        WithStartMember(b, 0);
      }
    } else {
      SameHead(a, b);
      forall date
        ensures WithStart(a[1..], date) == WithStart(b[1..], date)
      {
        SameTails(a, b, date);
      }
      SortedStableUnique(a[1..], b[1..]);
      assert a == [a[0]] + a[1..] && b == [b[0]] + b[1..];
    }
  }
}
