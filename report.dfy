/**
 * The chat message: an eight-line summary header followed by a six-line
 * block per employee, in the order the employees first appear in the calls,
 * joined with newlines.
 */
module Report {
  import opened Aggregation
  import opened Text

  // Header and block labels.
  const TitleLabel := "Статистика звонков за "
  const TotalLabel := "Всего звонков: "
  const IncomingLabel := "Входящих: "
  const MissedLabel := "Пропущенных: "
  const UniqueLabel := "Уникальных номеров: "
  const UnansweredLabel := "Неотвеченных: "
  const ByManagerLine := "По менеджерам:"
  const EmpTotalLabel := "— Всего звонков: "
  const EmpIncomingLabel := "— Входящих: "
  const EmpMissedLabel := "— Пропущенных: "
  const EmpUniqueLabel := "— Уникальных номеров: "
  const EmpUnansweredLabel := "— Неотвеченные: "

  /** What the unanswered line shows when an employee has no unanswered numbers. */
  const NoneMark := "—"

  /** The value shown on an employee's unanswered line. */
  function UnansweredText(numbers: seq<string>): string {
    if numbers == [] then NoneMark else Join(numbers, ", ")
  }

  /** The summary lines; `date` is the report day as `Y-m-d`. */
  function Header(stats: Stats, date: string): (lines: seq<string>)
    ensures |lines| == 8
  {
    [ TitleLabel + date,
      TotalLabel + NatToString(stats.totalCalls),
      IncomingLabel + NatToString(stats.totalIncoming),
      MissedLabel + NatToString(stats.totalMissed),
      UniqueLabel + NatToString(stats.overallUniqueCount),
      UnansweredLabel + NatToString(stats.overallUnansweredCount),
      "",
      ByManagerLine ]
  }

  /** The lines of one employee's block. */
  function Block(e: EmployeeStats): (lines: seq<string>)
    ensures |lines| == 6
  {
    [ " " + e.name,
      EmpTotalLabel + NatToString(e.totalCalls),
      EmpIncomingLabel + NatToString(e.incoming),
      EmpMissedLabel + NatToString(e.missed),
      EmpUniqueLabel + NatToString(e.uniqueNumbers),
      EmpUnansweredLabel + UnansweredText(e.unansweredNumbers) ]
  }

  /** The blocks of `employees`, in order. */
  function Blocks(employees: seq<EmployeeStats>): (lines: seq<string>)
    ensures |lines| == 6 * |employees|
  {
    if employees == [] then []
    else Blocks(employees[..|employees| - 1]) + Block(employees[|employees| - 1])
  }

  /** Every line of the message, in order. */
  function ReportLines(stats: Stats, date: string): seq<string> {
    Header(stats, date) + Blocks(stats.employees)
  }

  /** The message text. */
  function Message(stats: Stats, date: string): string {
    Join(ReportLines(stats, date), "\n")
  }

  /** Builds the header, then appends one block per employee, then joins the lines. */
  method BuildMessage(stats: Stats, date: string) returns (message: string)
    ensures message == Message(stats, date)
  {
    var lines := Header(stats, date);
    ghost var header := lines;
    var k := 0;
    while k < |stats.employees|
      invariant 0 <= k <= |stats.employees|
      invariant lines == header + Blocks(stats.employees[..k])
    {
      var e := stats.employees[k];
      ghost var done := stats.employees[..k];
      assert stats.employees[..k + 1] == done + [e];
      BlocksSnoc(done, e);
      lines := AppendEmployee(lines, e);
      AppendAssoc(header, Blocks(done), Block(e));
      k := k + 1;
    }
    assert stats.employees[..k] == stats.employees;
    message := Join(lines, "\n");
  }

  lemma AppendAssoc<T>(x: seq<T>, y: seq<T>, z: seq<T>)
    ensures x + y + z == x + (y + z)
  {
  }

  lemma BlocksSnoc(done: seq<EmployeeStats>, e: EmployeeStats)
    ensures Blocks(done + [e]) == Blocks(done) + Block(e)
  {
    assert (done + [e])[..|done|] == done;
  }

  /** Appends the six lines of one employee's block, one at a time. */
  method AppendEmployee(lines: seq<string>, e: EmployeeStats) returns (result: seq<string>)
    ensures result == lines + Block(e)
  {
    var unans := if e.unansweredNumbers != [] then Join(e.unansweredNumbers, ", ") else NoneMark;
    result := lines + [" " + e.name];
    result := result + [EmpTotalLabel + NatToString(e.totalCalls)];
    result := result + [EmpIncomingLabel + NatToString(e.incoming)];
    result := result + [EmpMissedLabel + NatToString(e.missed)];
    result := result + [EmpUniqueLabel + NatToString(e.uniqueNumbers)];
    result := result + [EmpUnansweredLabel + unans];
  }

  /** The message has 8 header lines and exactly 6 lines per employee. */
  lemma LineCount(stats: Stats, date: string)
    ensures |ReportLines(stats, date)| == 8 + 6 * |stats.employees|
  {
  }

  lemma SliceLeft<T>(x: seq<T>, y: seq<T>, i: nat, j: nat)
    requires i <= j <= |x|
    ensures (x + y)[i..j] == x[i..j]
  {
  }

  lemma SliceShift<T>(x: seq<T>, y: seq<T>, i: nat, j: nat)
    requires i <= j <= |y|
    ensures (x + y)[|x| + i..|x| + j] == y[i..j]
  {
  }

  lemma SliceRight<T>(x: seq<T>, y: seq<T>)
    ensures (x + y)[|x|..|x| + |y|] == y
  {
  }

  /** Block `k` occupies lines 6k to 6k + 5 of the blocks and belongs to employee `k`. */
  lemma {:induction false} BlockAt(employees: seq<EmployeeStats>, k: nat)
    requires k < |employees|
    ensures Blocks(employees)[6 * k .. 6 * k + 6] == Block(employees[k])
    decreases |employees|
  {
    var n := |employees|;
    var init := employees[..n - 1];
    var front := Blocks(init);
    var last := Block(employees[n - 1]);
    assert Blocks(employees) == front + last;
    if k < n - 1 {
      BlockAt(init, k);
      SliceLeft(front, last, 6 * k, 6 * k + 6);
      assert init[k] == employees[k];
    } else {
      SliceRight(front, last);
      assert |front| == 6 * k && |last| == 6;
    }
  }

  /** Employee `k`'s lines in the full message, and what its name and unanswered lines say. */
  lemma EmployeeLines(stats: Stats, date: string, k: nat)
    requires k < |stats.employees|
    ensures var lines := ReportLines(stats, date);
      var e := stats.employees[k];
      && lines[8 + 6 * k .. 14 + 6 * k] == Block(e)
      && lines[8 + 6 * k] == " " + e.name
      && lines[13 + 6 * k] == EmpUnansweredLabel + UnansweredText(e.unansweredNumbers)
  {
    var header := Header(stats, date);
    var blocks := Blocks(stats.employees);
    BlockAt(stats.employees, k);
    SliceShift(header, blocks, 6 * k, 6 * k + 6);
    var block := ReportLines(stats, date)[8 + 6 * k .. 14 + 6 * k];
    assert block == Block(stats.employees[k]);
    assert ReportLines(stats, date)[8 + 6 * k] == block[0];
    assert ReportLines(stats, date)[13 + 6 * k] == block[5];
  }

  /** The message splits back into its lines when no line text contains a newline. */
  lemma MessageLines(stats: Stats, date: string)
    requires forall i :: 0 <= i < |ReportLines(stats, date)| ==> '\n' !in ReportLines(stats, date)[i]
    ensures Split(Message(stats, date), '\n') == ReportLines(stats, date)
  {
    SplitJoin(ReportLines(stats, date), '\n');
  }

  /** The empty mark cannot be mistaken for a list of phone numbers. */
  lemma {:induction false} UnansweredTextEmptyIff(numbers: seq<string>)
    requires forall i :: 0 <= i < |numbers| ==> numbers[i] != [] && IsDigitChar(numbers[i][0])
    ensures UnansweredText(numbers) == NoneMark <==> numbers == []
  {
    if numbers != [] {
      JoinStartsWithFirst(numbers, ", ");
      var t := Join(numbers, ", ");
      assert t[0] == numbers[0][0];
    }
  }

  /** A day without calls: all-zero summary, no employee blocks. */
  lemma EmptyDay(date: string)
    ensures ReportLines(StatisticsOf([]), date) ==
      [ "Статистика звонков за " + date,
        "Всего звонков: 0",
        "Входящих: 0",
        "Пропущенных: 0",
        "Уникальных номеров: 0",
        "Неотвеченных: 0",
        "",
        "По менеджерам:" ]
  {
    var st := StatisticsOf([]);
    assert Fold([]) == Start;
    assert st == Stats(0, 0, 0, 0, 0, []);
    assert NatToString(0) == "0";
    assert ReportLines(st, date) == Header(st, date) + [];
    assert "Всего звонков: " + "0" == "Всего звонков: 0";
    assert "Входящих: " + "0" == "Входящих: 0";
    assert "Пропущенных: " + "0" == "Пропущенных: 0";
    assert "Уникальных номеров: " + "0" == "Уникальных номеров: 0";
    assert "Неотвеченных: " + "0" == "Неотвеченных: 0";
  }
}
