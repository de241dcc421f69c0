/**
 * The data `render` derives from the state: each column's tasks in board
 * order (`tasks.filter(t => t.col === col)`), the zero-padded count badge of
 * each column, and the global "N task(s)" stat. The markup itself is not modelled.
 */
module Render {
  import opened Board
  import Text
  import Seqs

  /** The tasks shown in column `c`, in their order on the board. */
  function Column(ts: seq<Task>, c: Col): (r: seq<Task>)
    ensures forall t :: t in r <==> t in ts && t.col == Name(c)
    ensures forall i :: 0 <= i < |r| ==> r[i].col == Name(c)
  {
    Seqs.Filter((t: Task) => t.col == Name(c), ts)
  }

  function Count(ts: seq<Task>, c: Col): nat
  {
    |Column(ts, c)|
  }

  /** The column's count badge, `padNum(colTasks.length)`: at least two digits that read back as the column's count. */
  function Badge(ts: seq<Task>, c: Col): (r: string)
    ensures |r| >= 2
    ensures Text.AllDigits(r) && Text.ParseDecimal(r) == Count(ts, c)
  {
    Text.PadNum(Count(ts, c))
  }

  /**
   * The header stat: the task count in decimal, then " task", with a final "s" unless the count is one.
   * The leading run of digits reads back as the count.
   */
  function StatLabel(n: nat): (r: string)
    ensures var d := |Text.NatToString(n)|;
      && |r| >= d + 5
      && Text.AllDigits(r[..d]) && Text.ParseDecimal(r[..d]) == n
      && r[d..d + 5] == " task"
    ensures r[|r| - 1] == 's' <==> n != 1
    ensures |r| == |Text.NatToString(n)| + (if n == 1 then 5 else 6)
  {
    var digits := Text.NatToString(n);
    var r := digits + " task" + (if n != 1 then "s" else "");
    assert r[..|digits|] == digits;
    r
  }

  /** A column lists tasks in board order: the column of a joined board is the joined columns. */
  lemma ColumnAppend(a: seq<Task>, b: seq<Task>, c: Col)
    ensures Column(a + b, c) == Column(a, c) + Column(b, c)
  {
    Seqs.FilterAppend((t: Task) => t.col == Name(c), a, b);
  }

  /** When every task is in a real column, the three column counts add up to the number of tasks. */
  lemma {:induction false} CountsSum(ts: seq<Task>)
    requires ColsValid(ts)
    ensures Count(ts, Todo) + Count(ts, Progress) + Count(ts, Done) == |ts|
    decreases |ts|
  {
    if |ts| > 0 {
      assert ColsValid(ts[1..]) by {
        forall i | 0 <= i < |ts[1..]| ensures IsColName(ts[1..][i].col) {
          assert ts[1..][i] == ts[i + 1];
        }
      }
      CountsSum(ts[1..]);
    }
  }

  /** Different task counts give different stat labels. */
  lemma StatLabelInjective(m: nat, n: nat)
    requires StatLabel(m) == StatLabel(n)
    ensures m == n
  {
    var dm, dn := Text.NatToString(m), Text.NatToString(n);
    var l := StatLabel(m);
    if |dm| == |dn| {
      assert dm == l[..|dm|] == dn;
    }
  }
}
