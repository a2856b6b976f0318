/** The cpu columns of vmstat.c: clamped tick deltas, the debt of an idle counter that
    runs backwards, and six rounded percentages. */
module VmstatPercent {

  import opened Common

  /** Differences of two readings of /proc/stat, which may be negative. */
  datatype Sample = Sample(usr: int, nic: int, sys: int, irq: int, srq: int, idl: int, iow: int, sto: int,
                           gst: int, gni: int)

  datatype Row = Row(us: nat, sy: nat, id: nat, wa: nat, st: nat, gu: nat)

  /** The setters of stat.c never deliver a negative delta. */
  function Clamp(x: int): nat { if x < 0 then 0 else x }

  /** The conversion of a long long to an unsigned. */
  function Unsigned(x: int): nat { x % WORD32 }

  /** Division of long longs truncates toward zero. */
  function CDiv(a: int, b: int): int
    requires b != 0
  {
    var q := (if a < 0 then -a else a) / (if b < 0 then -b else b);
    if (a < 0) == (b < 0) then q else -q
  }

  function Use(s: Sample): nat { Clamp(s.usr) + Clamp(s.nic) }
  function Guest(s: Sample): nat { Clamp(s.gst) + Clamp(s.gni) }
  function System(s: Sample): nat { Clamp(s.sys) + Clamp(s.irq) + Clamp(s.srq) }

  /** A share of div in percent, rounded. */
  function Percent(x: nat, div: nat): nat
    requires div > 0
  {
    (100 * x + div / 2) / div
  }

  /** A share as a real number of percent is off by half a percent at most. */
  predicate Rounds(p: nat, x: nat, div: nat) {
    200 * x - div < 2 * (div * p) <= 200 * x + div
  }

  lemma MulAtMost(d: nat, a: nat, b: nat)
    requires a <= b
    ensures d * a <= d * b
  {}

  lemma PercentRounds(x: nat, div: nat)
    requires div > 0
    ensures Rounds(Percent(x, div), x, div)
  {
    var a := 100 * x + div / 2;
    assert a == div * (a / div) + a % div;
  }

  lemma PercentIs(x: nat, div: nat, p: nat)
    requires div > 0 && div * p <= 100 * x + div / 2 < div * p + div
    ensures Percent(x, div) == p
  {
    var q, a := Percent(x, div), 100 * x + div / 2;
    assert a == div * q + a % div;
    if q < p {
      MulAtMost(div, q + 1, p);
    } else if p < q {
      MulAtMost(div, p + 1, q);
    }
  }

  /** A share is shown as at most p percent exactly when it is below p and a half. */
  lemma PercentAtMost(x: nat, div: nat, p: nat)
    requires div > 0
    ensures Percent(x, div) <= p <==> 100 * x + div / 2 < div * p + div
  {
    var q, a := Percent(x, div), 100 * x + div / 2;
    assert a == div * q + a % div;
    hide Percent;
    if q <= p {
      MulAtMost(div, q, p);
    } else {
      MulAtMost(div, p + 1, q);
    }
  }

  lemma PercentAtMost100(x: nat, div: nat)
    requires div > 0 && x <= div
    ensures Percent(x, div) <= 100
  {
    hide Percent;
    PercentAtMost(x, div, 100);
  }

  // ---------------------------------------------------------------------
  // The loop
  // ---------------------------------------------------------------------

  /** The total the shares refer to, and the idle share: an interval without any tick
      counts as idle. */
  function Div(s: Sample): (d: nat)
    ensures d > 0
  {
    var d := Use(s) + System(s) + Clamp(s.idl) + Clamp(s.iow) + Clamp(s.sto);
    if d == 0 then 1 else d
  }

  function Idle(s: Sample): nat {
    if Use(s) + System(s) + Clamp(s.idl) + Clamp(s.iow) + Clamp(s.sto) == 0 then 1 else Clamp(s.idl)
  }

  function User(s: Sample): nat { if Use(s) >= Guest(s) then Use(s) - Guest(s) else 0 }

  /** The row of an interval in which no idle ticks are owed. */
  function RowOf(s: Sample): Row {
    Row(Unsigned(Percent(User(s), Div(s))), Unsigned(Percent(System(s), Div(s))), Unsigned(Percent(Idle(s), Div(s))),
        Unsigned(Percent(Clamp(s.iow), Div(s))), Unsigned(Percent(Clamp(s.sto), Div(s))),
        Unsigned(Percent(Guest(s), Div(s))))
  }

  /** One printed share. */
  method Share(x: int, div: int, divo2: int) returns (p: nat)
    requires div != 0
    ensures x >= 0 && div > 0 && divo2 == div / 2 ==> p == Unsigned(Percent(x, div))
  {
    p := Unsigned(CDiv(100 * x + divo2, div));
  }

  /** The idle ticks of an interval when the given ticks, a negative number, are owed. */
  function Due(s: Sample, owed: int): int {
    var idl := Clamp(s.idl);
    if owed != 0 || Int(idl) < 0 then Int(idl) + owed else idl
  }

  /** The addition of what is owed does not overflow an int. */
  predicate Adds(s: Sample, owed: int) { owed == 0 || FitsInt(Int(Clamp(s.idl)) + owed) }

  /** The interval with the idle ticks that are owed paid back. */
  function Repaid(s: Sample, owed: int): Sample { s.(idl := Due(s, owed)) }

  /** The row and its total only depend on how far the idle ticks are above zero. */
  lemma IdleClamps(s: Sample, idl: int)
    ensures RowOf(s.(idl := Clamp(idl))) == RowOf(s.(idl := idl)) && Div(s.(idl := Clamp(idl))) == Div(s.(idl := idl))
    ensures s.(idl := s.idl) == s
  {
    hide Percent, Unsigned;
    assert Clamp(Clamp(idl)) == Clamp(idl);
  }

  /** The printed columns, for the interval with the given idle ticks. */
  method Columns(s: Sample, idleTicks: int) returns (row: Row)
    ensures idleTicks >= 0 && Div(s.(idl := idleTicks)) < WORD64 ==> row == RowOf(s.(idl := idleTicks))
  {
    hide Percent, Unsigned;
    var use: int, sys: int, idl: int, iow: int, sto: int, gue: int :=
      Use(s), System(s), idleTicks, Clamp(s.iow), Clamp(s.sto), Guest(s);
    var div := use + sys + idl + iow + sto;
    if div == 0 {
      div, idl := 1, 1;
    }
    var divo2 := (div % WORD64) / 2;
    use := if use >= gue then use - gue else 0;
    var us := Share(use, div, divo2);
    var sy := Share(sys, div, divo2);
    var id := Share(idl, div, divo2);
    var wa := Share(iow, div, divo2);
    var st := Share(sto, div, divo2);
    var gu := Share(gue, div, divo2);
    row := Row(us, sy, id, wa, st, gu);
  }

  /** One iteration: the printed row, and the debt that is carried over.  Idle ticks owed
      are paid from the idle ticks of the interval, as far as these go; the rest stays
      owed, and the row shows what is left. */
  method Iterate(s: Sample, before: int) returns (row: Row, debt: int)
    ensures FitsInt(debt) && debt <= 0
    ensures Adds(s, before) ==> debt + Clamp(Due(s, before)) == Due(s, before)
    ensures Adds(s, before) && Div(Repaid(s, before)) < WORD64 ==> row == RowOf(Repaid(s, before))
  {
    hide RowOf, Div;
    DueFits(s, before);
    IdleClamps(s, Due(s, before));
    var idl: int := Clamp(s.idl);
    debt := before;
    // a debt is paid first
    if debt != 0 {
      idl := Int(idl) + debt;
      debt := 0;
    }
    if Int(idl) < 0 {
      debt := Int(idl);
      idl := 0;
    }
    row := Columns(s, idl);
  }

  lemma DueFits(s: Sample, owed: int)
    ensures Adds(s, owed) && Int(Due(s, owed)) < 0 ==> Int(Due(s, owed)) == Due(s, owed)
    ensures Adds(s, owed) && Int(Due(s, owed)) >= 0 ==> Due(s, owed) >= 0
  {}

  /** What is owed in front of interval k. */
  function Before(debts: seq<int>, k: nat): int
    requires k <= |debts|
  {
    if k == 0 then 0 else debts[k - 1]
  }

  /** No interval up to k has idle ticks that an int shows as negative. */
  ghost predicate NoneOwed(samples: seq<Sample>, k: nat)
    requires k < |samples|
  {
    forall j :: 0 <= j <= k ==> Int(Clamp(samples[j].idl)) >= 0
  }

  /** Row and debt of interval k follow from the debt in front of it. */
  predicate Paid(s: Sample, owed: int, row: Row, debt: int) {
    && FitsInt(debt) && debt <= 0
    && (Adds(s, owed) ==> debt + Clamp(Due(s, owed)) == Due(s, owed) && row == RowOf(Repaid(s, owed)))
  }

  /** The main loop, for every interval: its idle ticks pay what is owed, and its row is
      that of the interval so corrected, within its bounds when guest ticks are user
      ticks. */
  method Loop(samples: seq<Sample>) returns (rows: seq<Row>, debts: seq<int>)
    requires forall k :: 0 <= k < |samples| ==> Div(samples[k]) < WORD64
    ensures |rows| == |debts| == |samples|
    ensures forall k :: 0 <= k < |samples| ==> Paid(samples[k], Before(debts, k), rows[k], debts[k])
    ensures forall k :: 0 <= k < |samples| && Adds(samples[k], Before(debts, k)) ==>
              OtherColumnsBounded(rows[k]) && (Guest(samples[k]) <= Use(samples[k]) ==> Bounded(rows[k]))
  {
    hide RowOf, Div, Clamp, Adds, Due, FitsInt, Bounded, OtherColumnsBounded, Guest, Use;
    rows, debts := [], [];
    var debt := 0;
    for k := 0 to |samples|
      invariant |rows| == |debts| == k && debt == Before(debts, k)
      invariant forall i :: 0 <= i < k ==> Paid(samples[i], Before(debts, i), rows[i], debts[i])
      invariant forall i :: 0 <= i < k && Adds(samples[i], Before(debts, i)) ==>
                  OtherColumnsBounded(rows[i]) && (Guest(samples[i]) <= Use(samples[i]) ==> Bounded(rows[i]))
    {
      ghost var owed := debt;
      RepaidDiv(samples[k], owed);
      RepaidBounds(samples[k], owed);
      var row;
      row, debt := Iterate(samples[k], debt);
      rows, debts := rows + [row], debts + [debt];
      assert Before(debts, k) == owed;
    }
  }

  lemma RepaidDiv(s: Sample, owed: int)
    requires Div(s) < WORD64 && owed <= 0
    ensures Div(Repaid(s, owed)) < WORD64
  {}

  lemma RepaidBounds(s: Sample, owed: int)
    ensures OtherColumnsBounded(RowOf(Repaid(s, owed)))
    ensures Guest(s) <= Use(s) ==> Bounded(RowOf(Repaid(s, owed)))
  {
    hide RowOf, Due, Bounded, OtherColumnsBounded;
    ColumnBounds(Repaid(s, owed));
    if Guest(s) <= Use(s) {
      RowBounds(Repaid(s, owed));
    }
  }

  /** Starting without debt there is none exactly as long as no idle delta is beyond an
      int, and until then every row is that of its own interval. */
  lemma {:induction false} NoDebt(samples: seq<Sample>, rows: seq<Row>, debts: seq<int>, k: nat)
    requires |rows| == |debts| == |samples| && k < |samples|
    requires forall i :: 0 <= i < |samples| ==> Paid(samples[i], Before(debts, i), rows[i], debts[i])
    ensures (forall i :: 0 <= i <= k ==> debts[i] == 0) <==> NoneOwed(samples, k)
    ensures NoneOwed(samples, k) ==> rows[k] == RowOf(samples[k])
  {
    hide RowOf, Int;
    if k > 0 {
      NoDebt(samples, rows, debts, k - 1);
    }
    if Before(debts, k) == 0 {
      var s := samples[k];
      assert Paid(s, 0, rows[k], debts[k]);
      IdleClamps(s, s.idl);
    }
  }

  // ---------------------------------------------------------------------
  // Bounds
  // ---------------------------------------------------------------------

  /** Guest ticks are also user ticks.  When the counters agree on that, the six shares
      make up the total, and only then. */
  lemma SharesAddUp(s: Sample)
    ensures User(s) + System(s) + Idle(s) + Clamp(s.iow) + Clamp(s.sto) + Guest(s) == Div(s)
            <==> Guest(s) <= Use(s)
  {}

  /** Six shares, each rounded to percent of d: their sum is less than three percent off. */
  lemma SixRounded(d: nat, p: seq<nat>, x: seq<nat>)
    requires |p| == |x| == 6 && d > 0
    requires forall i :: 0 <= i < 6 ==> Rounds(p[i], x[i], d)
    ensures var sum := p[0] + p[1] + p[2] + p[3] + p[4] + p[5];
      var total := x[0] + x[1] + x[2] + x[3] + x[4] + x[5];
      200 * total - 6 * d < 2 * (d * sum) <= 200 * total + 6 * d
  {
    Distribute(d, p[0], p[1], p[2], p[3], p[4], p[5]);
    assert Rounds(p[0], x[0], d) && Rounds(p[1], x[1], d) && Rounds(p[2], x[2], d);
    assert Rounds(p[3], x[3], d) && Rounds(p[4], x[4], d) && Rounds(p[5], x[5], d);
  }

  /** Close enough to a hundred percent. */
  lemma SumIs100(d: nat, sum: nat)
    requires d > 0 && 194 * d < 2 * (d * sum) <= 206 * d
    ensures 98 <= sum <= 103
  {
    if sum <= 97 {
      MulAtMost(d, sum, 97);
    } else if sum >= 104 {
      MulAtMost(d, 104, sum);
    }
  }

  lemma Distribute(d: nat, a: nat, b: nat, c: nat, e: nat, f: nat, g: nat)
    ensures d * (a + b + c + e + f + g) == d * a + d * b + d * c + d * e + d * f + d * g
  {
    assert d * (a + b + c + e + f + g) == d * (a + b + c) + d * (e + f + g);
    assert d * (a + b + c) == d * (a + b) + d * c && d * (e + f + g) == d * (e + f) + d * g;
  }

  lemma SmallUnsigned(x: nat)
    requires x <= 1000
    ensures Unsigned(x) == x
  {}

  lemma ShareBounds(x: nat, d: nat)
    requires d > 0 && x <= d
    ensures Unsigned(Percent(x, d)) <= 100 && Rounds(Unsigned(Percent(x, d)), x, d)
  {
    PercentRounds(x, d);
    PercentAtMost100(x, d);
    SmallUnsigned(Percent(x, d));
  }

  /** Everything but the guest column is at most 100. */
  predicate OtherColumnsBounded(r: Row) { r.us <= 100 && r.sy <= 100 && r.id <= 100 && r.wa <= 100 && r.st <= 100 }

  predicate Bounded(r: Row) {
    OtherColumnsBounded(r) && r.gu <= 100 && 98 <= RowSum(r) <= 103
  }

  /** In every interval whatever, five of the columns are at most 100. */
  lemma ColumnBounds(s: Sample)
    ensures OtherColumnsBounded(RowOf(s))
  {
    SharesExceed(s);
    hide User, System, Idle, Div, Guest, Clamp, Percent, Rounds, Use, Unsigned;
    var d := Div(s);
    ShareBounds(User(s), d);
    ShareBounds(System(s), d);
    ShareBounds(Idle(s), d);
    ShareBounds(Clamp(s.iow), d);
    ShareBounds(Clamp(s.sto), d);
  }

  /** The guest ticks that are no user ticks. */
  function Excess(s: Sample): nat { if Guest(s) > Use(s) then Guest(s) - Use(s) else 0 }

  function RowSum(r: Row): nat { r.us + r.sy + r.id + r.wa + r.st + r.gu }

  lemma GuestRounds(s: Sample)
    requires 100 * Guest(s) + Div(s) / 2 < WORD32 * Div(s)
    ensures Rounds(RowOf(s).gu, Guest(s), Div(s))
  {
    hide Percent, Guest, Div, Rounds;
    PercentAtMost(Guest(s), Div(s), WORD32 - 1);
    PercentRounds(Guest(s), Div(s));
  }

  lemma SharesExceed(s: Sample)
    ensures User(s) + System(s) + Idle(s) + Clamp(s.iow) + Clamp(s.sto) + Guest(s) == Div(s) + Excess(s)
    ensures User(s) <= Div(s) && System(s) <= Div(s) && Idle(s) <= Div(s)
    ensures Clamp(s.iow) <= Div(s) && Clamp(s.sto) <= Div(s) && (Excess(s) == 0 ==> Guest(s) <= Div(s))
  {}

  /** In every interval the six columns add up to a hundred percent and the guest ticks
      that are no user ticks, within three percent. */
  lemma RowSumIs(s: Sample)
    requires 100 * Guest(s) + Div(s) / 2 < WORD32 * Div(s)
    ensures 194 * Div(s) + 200 * Excess(s) < 2 * (Div(s) * RowSum(RowOf(s))) <= 206 * Div(s) + 200 * Excess(s)
  {
    SharesExceed(s);
    GuestRounds(s);
    hide User, System, Idle, Div, Guest, Clamp, Percent, Rounds, Use, Unsigned, Excess;
    var d := Div(s);
    ShareBounds(User(s), d);
    ShareBounds(System(s), d);
    ShareBounds(Idle(s), d);
    ShareBounds(Clamp(s.iow), d);
    ShareBounds(Clamp(s.sto), d);
    var r := RowOf(s);
    SixRounded(d, [r.us, r.sy, r.id, r.wa, r.st, r.gu],
               [User(s), System(s), Idle(s), Clamp(s.iow), Clamp(s.sto), Guest(s)]);
  }

  /** In every interval whose guest ticks are user ticks, each column is at most 100 and
      the six of them add up to between 98 and 103. */
  lemma RowBounds(s: Sample)
    requires Guest(s) <= Use(s)
    ensures Bounded(RowOf(s))
  {
    SharesExceed(s);
    ColumnBounds(s);
    hide User, System, Idle, Div, Percent, RowOf, Guest, Use, OtherColumnsBounded;
    MulAtMost(Div(s), 101, WORD32);
    GuestColumn(s);
    RowSumIs(s);
    SumIs100(Div(s), RowSum(RowOf(s)));
  }

  /** The guest column is at most 100 exactly when the guest ticks are below 100 and a
      half percent of the total, whether or not they are user ticks; this as long as the
      percentage fits the unsigned it is printed as. */
  lemma GuestColumn(s: Sample)
    requires 100 * Guest(s) + Div(s) / 2 < WORD32 * Div(s)
    ensures RowOf(s).gu <= 100 <==> 100 * Guest(s) + Div(s) / 2 < 101 * Div(s)
  {
    hide Percent, Guest, Div;
    PercentAtMost(Guest(s), Div(s), WORD32 - 1);
    PercentAtMost(Guest(s), Div(s), 100);
  }

  lemma ShareIs(x: nat, d: nat, p: nat)
    requires d > 0 && d * p <= 100 * x + d / 2 < d * p + d && p <= 1000
    ensures Unsigned(Percent(x, d)) == p
  {
    PercentIs(x, d, p);
    SmallUnsigned(p);
  }

  predicate Ticks(s: Sample, usr: int, sys: int, idl: int, iow: int, sto: int, gst: int) {
    && s.usr == usr && s.sys == sys && s.idl == idl && s.iow == iow && s.sto == sto && s.gst == gst
    && s.nic == 0 && s.irq == 0 && s.srq == 0 && s.gni == 0
  }

  lemma TicksAre(s: Sample, usr: nat, sys: nat, idl: nat, iow: nat, sto: nat, gst: nat)
    requires Ticks(s, usr, sys, idl, iow, sto, gst) && idl > 0 && gst <= usr
    ensures Div(s) == usr + sys + idl + iow + sto && User(s) == usr - gst && System(s) == sys && Idle(s) == idl
    ensures Clamp(s.iow) == iow && Clamp(s.sto) == sto && Guest(s) == gst <= Use(s)
  {}

  lemma UpperShares(s: Sample)
    requires Div(s) == 200 && Idle(s) == 35
    requires User(s) == 33 && System(s) == 33 && Clamp(s.iow) == 33 && Clamp(s.sto) == 33 && Guest(s) == 33
    ensures RowOf(s) == Row(17, 17, 18, 17, 17, 17)
  {
    hide Percent, Unsigned, Div, User, System, Idle, Use, Guest, Clamp;
    ShareIs(33, 200, 17);
    ShareIs(35, 200, 18);
  }

  lemma LowerShares(s: Sample)
    requires Div(s) == 300 && System(s) == 52 && Idle(s) == 52
    requires User(s) == 49 && Clamp(s.iow) == 49 && Clamp(s.sto) == 49 && Guest(s) == 49
    ensures RowOf(s) == Row(16, 17, 17, 16, 16, 16)
  {
    hide Percent, Unsigned, Div, User, System, Idle, Use, Guest, Clamp;
    ShareIs(49, 300, 16);
    ShareIs(52, 300, 17);
  }

  /** Both bounds are reached: five shares of 16.5 and one of 17.5 are all rounded up,
      shares a third above a whole number are all rounded down. */
  lemma BoundsReached()
    ensures exists s :: Guest(s) <= Use(s) && RowOf(s) == Row(17, 17, 18, 17, 17, 17)
    ensures exists s :: Guest(s) <= Use(s) && RowOf(s) == Row(16, 17, 17, 16, 16, 16)
  {
    hide Div, User, System, Idle, Clamp, Guest, Use, RowOf;
    var upper := Sample(66, 0, 33, 0, 0, 35, 33, 33, 33, 0);
    TicksAre(upper, 66, 33, 35, 33, 33, 33);
    UpperShares(upper);
    var lower := Sample(98, 0, 52, 0, 0, 52, 49, 49, 49, 0);
    TicksAre(lower, 98, 52, 52, 49, 49, 49);
    LowerShares(lower);
  }

  /** Two guest ticks in an otherwise idle interval of one tick are shown as 200 percent;
      one guest tick beyond the user ticks of a long interval is shown as nothing. */
  lemma GuestBeyondUser(s: Sample)
    ensures Ticks(s, 0, 0, 1, 0, 0, 2) ==> Guest(s) > Use(s) && RowOf(s).gu == 200
    ensures Ticks(s, 0, 1000, 0, 0, 0, 1) ==> Guest(s) > Use(s) && RowOf(s).gu == 0
  {
    hide Percent, Unsigned;
    ShareIs(2, 1, 200);
    ShareIs(1, 1000, 0);
  }

  // ---------------------------------------------------------------------
  // Column by column
  // ---------------------------------------------------------------------

  /** p is x in percent of d, rounded to the nearest, and up from a half. */
  predicate Nearest(p: nat, x: int, d: int) { 200 * x - d < 2 * (d * p) <= 200 * x + d }

  /** Negative deltas count as none. */
  function AtLeastZero(x: int): int { if x < 0 then 0 else x }

  lemma ClampIs()
    ensures forall x :: Clamp(x) == AtLeastZero(x)
  {}

  /** All ticks but the guest ticks. */
  function AllTicks(s: Sample): int {
    AtLeastZero(s.usr) + AtLeastZero(s.nic) + AtLeastZero(s.sys) + AtLeastZero(s.irq) + AtLeastZero(s.srq)
    + AtLeastZero(s.idl) + AtLeastZero(s.iow) + AtLeastZero(s.sto)
  }

  /** Every column of an interval by the ticks it shows: user and nice less guest, system with
      both kinds of interrupts, idle, wait, stolen and guest, each in percent of all but the
      guest ticks. */
  lemma ColumnsShow(s: Sample)
    requires AllTicks(s) > 0
    ensures var d, r, guest := AllTicks(s), RowOf(s), AtLeastZero(s.gst) + AtLeastZero(s.gni);
      && Nearest(r.us, AtLeastZero(AtLeastZero(s.usr) + AtLeastZero(s.nic) - guest), d)
      && Nearest(r.sy, AtLeastZero(s.sys) + AtLeastZero(s.irq) + AtLeastZero(s.srq), d)
      && Nearest(r.id, AtLeastZero(s.idl), d)
      && Nearest(r.wa, AtLeastZero(s.iow), d) && Nearest(r.st, AtLeastZero(s.sto), d)
      && (100 * guest + d / 2 < 0x1_0000_0000 * d ==> Nearest(r.gu, guest, d))
  {
    var d := AllTicks(s);
    SharesExceed(s);
    SharesShow(s);
    hide User, System, Idle, Div, Guest, Clamp, Percent, Use, Unsigned, Excess, AllTicks, AtLeastZero;
    ShareBounds(User(s), d);
    ShareBounds(System(s), d);
    ShareBounds(Idle(s), d);
    ShareBounds(Clamp(s.iow), d);
    ShareBounds(Clamp(s.sto), d);
    if 100 * Guest(s) + d / 2 < WORD32 * d {
      GuestRounds(s);
    }
  }

  lemma SharesShow(s: Sample)
    requires AllTicks(s) > 0
    ensures var guest := AtLeastZero(s.gst) + AtLeastZero(s.gni);
      && Div(s) == AllTicks(s) && Guest(s) == guest
      && User(s) == AtLeastZero(AtLeastZero(s.usr) + AtLeastZero(s.nic) - guest)
      && System(s) == AtLeastZero(s.sys) + AtLeastZero(s.irq) + AtLeastZero(s.srq)
      && Idle(s) == AtLeastZero(s.idl) && Clamp(s.iow) == AtLeastZero(s.iow) && Clamp(s.sto) == AtLeastZero(s.sto)
  {
    hide Clamp, AtLeastZero;
    ClampIs();
    UserIs(Use(s), Guest(s));
  }

  lemma UserIs(use: int, guest: int)
    ensures AtLeastZero(use - guest) == if use >= guest then use - guest else 0
  {}

  /** An interval without any tick is shown as idle. */
  lemma NothingIsIdle(s: Sample)
    requires s.usr <= 0 && s.nic <= 0 && s.sys <= 0 && s.irq <= 0 && s.srq <= 0
    requires s.idl <= 0 && s.iow <= 0 && s.sto <= 0 && s.gst <= 0 && s.gni <= 0
    ensures RowOf(s) == Row(0, 0, 100, 0, 0, 0)
  {
    hide Percent, Unsigned;
    ShareIs(0, 1, 0);
    ShareIs(1, 1, 100);
  }

  /** What is due, by the numbers: owed ticks are taken off the idle ticks. */
  lemma DueIs(s: Sample, owed: int)
    requires 0 <= s.idl <= 0x7fff_ffff && -0x8000_0000 <= owed <= 0
    ensures Due(s, owed) == s.idl + owed && (owed == 0 || s.idl + owed <= 0x7fff_ffff ==> Adds(s, owed))
  {}
}
