/** The main loop of `divmod`, round by round, with an account of what the code's add-back
    loses. */
module DivisionLoop {
  import opened Digits
  import opened QuotientDigit
  import opened LongDivision

  // ---------- which rounds do no harm ----------

  /** The running remainder of round j, with the next dividend digit brought down, when x is
      divided by the n-digit v and the quotient has m + 1 digits. */
  function Remainder(x: nat, v: nat, m: nat, j: nat): nat
    requires v > 0 && j <= m
  {
    BASE * Rem(Drop(x, m - j + 1), v) + Drop(x, m - j) % BASE
  }

  /** What an add-back for the window u loses; nothing if there is none. */
  function Loss(u: nat, v: nat, n: nat): nat
    requires FullDivisor(v, n) && v > 0
  {
    if Estimate(u, v, n) == Quo(u, v) || Underflowed(u, v, n) < 0 then 0 else Dropped(Underflowed(u, v, n), v, n)
  }

  /** Round j needs no add-back, or it is one whose dropped carries do no harm: the first
      round of several on a dividend that fills all four digits, with no carry between the
      digits that are added. */
  predicate StepKept(x: nat, v: nat, n: nat, m: nat, j: nat)
    requires FullDivisor(v, n) && v > 0 && j <= m
  {
    var u := Remainder(x, v, m, j);
    || Estimate(u, v, n) == Quo(u, v)
    || (n + m == 4 && j == 0 && m > 0 && Loss(u, v, n) == 0)
  }

  /** The rounds before j do no harm. */
  predicate KeptBefore(x: nat, v: nat, n: nat, m: nat, j: nat)
    requires FullDivisor(v, n) && v > 0 && j <= m + 1
  {
    j == 0 || (KeptBefore(x, v, n, m, j - 1) && StepKept(x, v, n, m, j - 1))
  }

  // ---------- what a run with dropped carries leaves ----------

  /** The rest before round j, and the window with the next dividend digit. */
  function RestAt(x: nat, v: nat, n: nat, m: nat, j: nat): nat
    requires FullDivisor(v, n) && v > 0 && j <= m + 1
    decreases j, 0
  {
    if j == 0 then Drop(x, m + 1)
    else
      var u := WindowAt(x, v, n, m, j - 1);
      if Loss(u, v, n) <= Rem(u, v) then Rem(u, v) - Loss(u, v, n) else 0
  }

  function WindowAt(x: nat, v: nat, n: nat, m: nat, j: nat): nat
    requires FullDivisor(v, n) && v > 0 && j <= m
    decreases j, 1
  {
    BASE * RestAt(x, v, n, m, j) + Drop(x, m - j) % BASE
  }

  /** What the carries dropped before round j are worth by then. */
  function Lost(x: nat, v: nat, n: nat, m: nat, j: nat): nat
    requires FullDivisor(v, n) && v > 0 && j <= m + 1
  {
    if j == 0 then 0 else BASE * Lost(x, v, n, m, j - 1) + Loss(WindowAt(x, v, n, m, j - 1), v, n)
  }

  lemma LostDigits(x: nat, v: nat, n: nat, m: nat, j: nat) returns (f: nat)
    requires FullDivisor(v, n) && v > 0 && j <= m + 1
    ensures Lost(x, v, n, m, j) == BASE * f
  {
    f := 0;
    if j > 0 {
      var u, y := WindowAt(x, v, n, m, j - 1), Underflowed(WindowAt(x, v, n, m, j - 1), v, n);
      f := Lost(x, v, n, m, j - 1);
      if Loss(u, v, n) > 0 {
        f := f + (if y % BASE + v % BASE >= BASE then 1 else 0) + Dropped(y / BASE, v / BASE, n - 1);
      }
    }
  }

  /** The last round before j with an add-back, or -1. */
  function LastAddBack(x: nat, v: nat, n: nat, m: nat, j: nat): (k: int)
    requires FullDivisor(v, n) && v > 0 && j <= m + 1
    ensures -1 <= k < j
  {
    if j == 0 then -1
    else
      var u := WindowAt(x, v, n, m, j - 1);
      if Estimate(u, v, n) == Quo(u, v) then LastAddBack(x, v, n, m, j - 1) else j - 1
  }

  // ---------- the division loop ----------

  /** v taken x times. */
  function Times(x: nat, v: nat): nat {
    if x == 0 then 0 else Times(x - 1, v) + v
  }

  lemma {:induction false} TimesIs(x: nat, v: nat)
    ensures Times(x, v) == x * v
  {
    if x > 0 {
      TimesIs(x - 1, v);
      Distribute(v, x - 1, 1, x);
    }
  }

  /** What the arrays hold before round j, in terms of the normalised dividend digits ds and
      divisor v: the quotient digits qs found so far, the rest, the amount e by which dropped
      carries have made the rest too small, and the position of the last digit that an
      add-back without carries has left at BASE - 1 (or -1). */
  ghost predicate Round(us: seq<Digit>, qs: seq<Digit>, ds: seq<Digit>, v: nat, n: nat, m: nat, j: nat,
                        e: nat, junk: int) {
    && |us| == 5 && n + m <= 4 && |ds| == n + m + 1 && j <= m + 1 && |qs| == j
    && var k := 4 - n - m;
    && Val(us[k + j..k + j + n]) < v
    && us[k + j + n..] == ds[j + n..]
    && Times(Val(qs), v) + Val(us[k + j..k + j + n]) + e == Val(ds[..j + n])
    && (junk == -1 || (k <= junk < k + j && us[junk] == BASE - 1))
    && (forall x :: 0 <= x < k + j && junk < x ==> us[x] == 0)
  }

  /** The state of a run that can still end in the right quotient and remainder. */
  predicate Fine(e: nat, junk: int, m: nat) {
    e == 0 && Harmless(junk, m)
  }

  /** No digit has been left over where it counts. */
  predicate Harmless(junk: int, m: nat) {
    junk == -1 || (junk == 0 && m > 0)
  }

  /** The window of round j: the rest with the next dividend digit. */
  ghost function Window(us: seq<Digit>, w: nat, n: nat): nat
    requires w + n < |us|
  {
    Val(us[w..w + n + 1])
  }

  lemma WindowParts(us: seq<Digit>, qs: seq<Digit>, ds: seq<Digit>, v: nat, n: nat, m: nat, j: nat,
                    e: nat, junk: int)
    requires Round(us, qs, ds, v, n, m, j, e, junk) && j <= m
    ensures Window(us, 4 - n - m + j, n) == BASE * Val(us[4 - n - m + j..4 - n - m + j + n]) + ds[j + n]
    ensures Val(ds[..j + 1 + n]) == BASE * Val(ds[..j + n]) + ds[j + n]
  {
    var s := us[4 - n - m + j..4 - n - m + j + n + 1];
    assert s == us[4 - n - m + j..4 - n - m + j + n] + [us[4 - m + j..][0]];
    assert us[4 - m + j..][0] == ds[j + n..][0] == ds[j + n];
    ValSnoc(us[4 - n - m + j..4 - n - m + j + n], ds[j + n]);
    ValSnoc(ds[..j + n], ds[j + n]);
    assert ds[..j + 1 + n] == ds[..j + n] + [ds[j + n]];
  }

  /** While nothing has been lost, the window is the running remainder of the division. */
  lemma RoundRunning(us: seq<Digit>, qs: seq<Digit>, ds: seq<Digit>, v: nat, n: nat, m: nat, j: nat, junk: int)
    requires Round(us, qs, ds, v, n, m, j, 0, junk) && j <= m && v > 0
    ensures Window(us, 4 - n - m + j, n) == Remainder(Val(ds), v, m, j)
  {
    WindowParts(us, qs, ds, v, n, m, j, 0, junk);
    var p, r := Val(ds[..j + n]), Val(us[4 - n - m + j..4 - n - m + j + n]);
    assert Rem(p, v) == r by {
      TimesIs(Val(qs), v);
      QuoUnique(p, v, Val(qs), r);
    }
    assert Drop(Val(ds), m - j + 1) == p by { ValPrefix(ds, j + n); }
    assert Drop(Val(ds), m - j) == Val(ds[..j + 1 + n]) by { ValPrefix(ds, j + n + 1); }
    RunningIs(Val(ds), v, m, j, p, ds[j + n]);
  }

  lemma RunningIs(x: nat, v: nat, m: nat, j: nat, p: nat, d: Digit)
    requires v > 0 && j <= m && Drop(x, m - j + 1) == p && Drop(x, m - j) == BASE * p + d
    ensures Remainder(x, v, m, j) == BASE * Rem(p, v) + d
  {}

  lemma RoundValue(q: nat, qd: nat, v: nat, r: nat, x: nat, e: nat, u: nat, p: nat)
    requires v > 0 && Times(q, v) + r + e == p && u == BASE * r + x && qd == Quo(u, v)
    ensures Times(BASE * q + qd, v) + Rem(u, v) + BASE * e == BASE * p + x
  {
    TimesIs(q, v);
    TimesIs(BASE * q + qd, v);
    QuoRest(u, v);
    Distribute(v, BASE * q, qd, BASE * q + qd);
    Assoc(BASE, q, v);
  }

  /** The step from one round's state to the next, from what happened to the window. */
  lemma RoundStep(us: seq<Digit>, us': seq<Digit>, qs: seq<Digit>, ds: seq<Digit>, v: nat, n: nat, m: nat,
                  j: nat, e: nat, junk: int, e': nat, junk': int)
    requires Round(us, qs, ds, v, n, m, j, e, junk) && j <= m && v > 0 && Quo(Window(us, 4 - n - m + j, n), v) < BASE
    requires |us'| == 5
    requires forall x :: 0 <= x < 5 && !(4 - n - m + j <= x <= 4 - n - m + j + n) ==> us'[x] == us[x]
    requires var r := Val(us'[4 - n - m + j + 1..4 - n - m + j + n + 1]);
             r < v && r + e' == BASE * e + Rem(Window(us, 4 - n - m + j, n), v)
    requires if junk' == junk then us'[4 - n - m + j] == 0
             else junk' == 4 - n - m + j && us'[junk'] == BASE - 1
    ensures Round(us', qs + [Quo(Window(us, 4 - n - m + j, n), v)], ds, v, n, m, j + 1, e', junk')
  {
    var k := 4 - n - m;
    assert us'[k + j + 1 + n..] == us[k + j + n..][1..] == ds[j + n..][1..] == ds[j + 1 + n..];
    RoundSum(us, us', qs, ds, v, n, m, j, e, junk, e');
  }

  /** What is kept of the sum of all parts. */
  lemma RoundSum(us: seq<Digit>, us': seq<Digit>, qs: seq<Digit>, ds: seq<Digit>, v: nat, n: nat, m: nat,
                 j: nat, e: nat, junk: int, e': nat)
    requires Round(us, qs, ds, v, n, m, j, e, junk) && j <= m && v > 0 && Quo(Window(us, 4 - n - m + j, n), v) < BASE
    requires |us'| == 5
    requires Val(us'[4 - n - m + j + 1..4 - n - m + j + n + 1]) + e'
             == BASE * e + Rem(Window(us, 4 - n - m + j, n), v)
    ensures Times(Val(qs + [Quo(Window(us, 4 - n - m + j, n), v)]), v)
            + Val(us'[4 - n - m + j + 1..4 - n - m + j + n + 1]) + e' == Val(ds[..j + 1 + n])
  {
    var k, qd := 4 - n - m, Quo(Window(us, 4 - n - m + j, n), v);
    WindowParts(us, qs, ds, v, n, m, j, e, junk);
    ValSnoc(qs, qd);
    RoundValue(Val(qs), qd, v, Val(us[k + j..k + j + n]), ds[j + n], e, Window(us, k + j, n), Val(ds[..j + n]));
  }

  /** What one call of DivideStep does to the window. */
  ghost predicate Stepped(us: seq<Digit>, us': seq<Digit>, v: nat, n: nat, m: nat, j: nat, wide: bool) {
    && |us| == |us'| == 5 && n + m <= 4 && j <= m && FullDivisor(v, n) && v > 0
    && (forall x :: 0 <= x < 5 && !(4 - n - m + j <= x <= 4 - n - m + j + n) ==> us'[x] == us[x])
    && var u, r := Window(us, 4 - n - m + j, n), Val(us'[4 - n - m + j + 1..4 - n - m + j + n + 1]);
    && Quo(u, v) < BASE
    && if wide || Estimate(u, v, n) == Quo(u, v)
       then us'[4 - n - m + j] == 0 && r == Rem(u, v)
       else && us'[4 - n - m + j] == BASE - 1
            && 0 <= Underflowed(u, v, n)
            && r + Dropped(Underflowed(u, v, n), v, n) == Rem(u, v)
  }

  /** The state is the one foretold for a run that drops carries. */
  ghost predicate Foretold(us: seq<Digit>, ds: seq<Digit>, v: nat, n: nat, m: nat, j: nat, e: nat, junk: int) {
    && |us| == 5 && n + m <= 4 && j <= m + 1 && FullDivisor(v, n) && v > 0
    && Val(us[4 - n - m + j..4 - n - m + j + n]) == RestAt(Val(ds), v, n, m, j)
    && e == Lost(Val(ds), v, n, m, j)
    && junk == if LastAddBack(Val(ds), v, n, m, j) < 0 then -1 else 4 - n - m + LastAddBack(Val(ds), v, n, m, j)
  }

  lemma WindowForetold(us: seq<Digit>, ds: seq<Digit>, v: nat, n: nat, m: nat, j: nat)
    requires |us| == 5 && n + m <= 4 && |ds| == n + m + 1 && j <= m && FullDivisor(v, n) && v > 0
    requires us[4 - m + j..] == ds[j + n..]
    requires Val(us[4 - n - m + j..4 - n - m + j + n]) == RestAt(Val(ds), v, n, m, j)
    ensures Window(us, 4 - n - m + j, n) == WindowAt(Val(ds), v, n, m, j)
  {
    var s := us[4 - n - m + j..4 - n - m + j + n];
    WindowSnoc(us, 4 - n - m + j, n, ds[j + n]);
    NextWindow(ds, v, n, m, j, Val(s), Window(us, 4 - n - m + j, n));
  }

  lemma WindowSnoc(us: seq<Digit>, w: nat, n: nat, d: Digit)
    requires w + n < |us| && us[w + n] == d
    ensures Window(us, w, n) == BASE * Val(us[w..w + n]) + d
  {
    assert us[w..w + n + 1] == us[w..w + n] + [d];
    ValSnoc(us[w..w + n], d);
  }

  lemma PrefixNext(ds: seq<Digit>, i: nat) returns (p: nat)
    requires i < |ds|
    ensures Drop(Val(ds), |ds| - i - 1) == BASE * p + ds[i]
  {
    p := Val(ds[..i]);
    ValPrefix(ds, i + 1);
    ValSnoc(ds[..i], ds[i]);
    assert ds[..i + 1] == ds[..i] + [ds[i]];
  }

  lemma NextWindow(ds: seq<Digit>, v: nat, n: nat, m: nat, j: nat, rest: nat, w: nat)
    requires |ds| == n + m + 1 && FullDivisor(v, n) && v > 0 && j <= m && rest == RestAt(Val(ds), v, n, m, j)
    requires w == BASE * rest + ds[j + n]
    ensures w == WindowAt(Val(ds), v, n, m, j)
  {
    var p := PrefixNext(ds, j + n);
    LastDigit(Drop(Val(ds), m - j), p, ds[j + n]);
  }

  lemma LastDigit(x: nat, p: nat, d: Digit)
    requires x == BASE * p + d
    ensures x % BASE == d
  {}

  lemma SteppedRound(us: seq<Digit>, us': seq<Digit>, qs: seq<Digit>, ds: seq<Digit>, v: nat, n: nat, m: nat,
                     j: nat, e: nat, junk: int, wide: bool) returns (e': nat, junk': int)
    requires Round(us, qs, ds, v, n, m, j, e, junk) && Stepped(us, us', v, n, m, j, wide)
    ensures Round(us', qs + [Quo(Window(us, 4 - n - m + j, n), v)], ds, v, n, m, j + 1, e', junk')
    ensures wide && Fine(e, junk, m) ==> Fine(e', junk', m)
    ensures !wide ==> (Fine(e', junk', m) <==> Fine(e, junk, m) && StepKept(Val(ds), v, n, m, j))
    ensures var u, r := Window(us, 4 - n - m + j, n), Val(us'[4 - n - m + j + 1..4 - n - m + j + n + 1]);
            && e' == BASE * e + Rem(u, v) - r
            && junk' == if wide || Estimate(u, v, n) == Quo(u, v) then junk else 4 - n - m + j
  {
    var u, r := Window(us, 4 - n - m + j, n), Val(us'[4 - n - m + j + 1..4 - n - m + j + n + 1]);
    QuoRest(u, v);
    e' := BASE * e + Rem(u, v) - r;
    junk' := if wide || Estimate(u, v, n) == Quo(u, v) then junk else 4 - n - m + j;
    RoundStep(us, us', qs, ds, v, n, m, j, e, junk, e', junk');
    if Fine(e, junk, m) { RoundRunning(us, qs, ds, v, n, m, j, junk); }
    FineNext(Val(ds), v, n, m, j, u, r, e, junk, e', junk', wide);
  }

  /** What a round does to a run that can still end right. */
  lemma FineNext(x: nat, v: nat, n: nat, m: nat, j: nat, u: nat, r: nat, e: nat, junk: int, e': nat, junk': int,
                 wide: bool)
    requires FullDivisor(v, n) && v > 0 && j <= m && n + m <= 4
    requires r + (if wide then 0 else Loss(u, v, n)) == Rem(u, v) && e' == BASE * e + Rem(u, v) - r
    requires junk' == if wide || Estimate(u, v, n) == Quo(u, v) then junk else 4 - n - m + j
    requires Fine(e, junk, m) ==> u == Remainder(x, v, m, j)
    requires junk == -1 || (4 - n - m <= junk < 4 - n - m + j)
    ensures wide && Fine(e, junk, m) ==> Fine(e', junk', m)
    ensures !wide ==> (Fine(e', junk', m) <==> Fine(e, junk, m) && StepKept(x, v, n, m, j))
  {}

  lemma RestNext(x: nat, v: nat, n: nat, m: nat, j: nat, u: nat, r: nat)
    requires FullDivisor(v, n) && v > 0 && j <= m && u == WindowAt(x, v, n, m, j) && r + Loss(u, v, n) == Rem(u, v)
    ensures RestAt(x, v, n, m, j + 1) == r
    ensures Lost(x, v, n, m, j + 1) == BASE * Lost(x, v, n, m, j) + Rem(u, v) - r
    ensures LastAddBack(x, v, n, m, j + 1) == if Estimate(u, v, n) == Quo(u, v) then LastAddBack(x, v, n, m, j) else j
  {}

  lemma ForetoldNext(us: seq<Digit>, us': seq<Digit>, ds: seq<Digit>, v: nat, n: nat, m: nat, j: nat, e: nat, junk: int,
                     e': nat, junk': int, u: nat, r: nat)
    requires Stepped(us, us', v, n, m, j, false) && Foretold(us, ds, v, n, m, j, e, junk)
    requires u == Window(us, 4 - n - m + j, n) == WindowAt(Val(ds), v, n, m, j)
    requires r == Val(us'[4 - n - m + j + 1..4 - n - m + j + n + 1]) && e' == BASE * e + Rem(u, v) - r
    requires junk' == if Estimate(u, v, n) == Quo(u, v) then junk else 4 - n - m + j
    ensures Foretold(us', ds, v, n, m, j + 1, e', junk')
  {
    RestNext(Val(ds), v, n, m, j, u, r);
    assert us'[4 - n - m + (j + 1)..4 - n - m + (j + 1) + n] == us'[4 - n - m + j + 1..4 - n - m + j + n + 1];
  }

  /** The state of the loop before round j of a run with or without widened sums. */
  ghost predicate Running(us: seq<Digit>, qs: seq<Digit>, ds: seq<Digit>, v: nat, n: nat, m: nat, j: nat,
                          e: nat, junk: int, wide: bool) {
    && Round(us, qs, ds, v, n, m, j, e, junk) && FullDivisor(v, n) && v > 0
    && if wide then Fine(e, junk, m)
       else (Fine(e, junk, m) <==> KeptBefore(Val(ds), v, n, m, j)) && Foretold(us, ds, v, n, m, j, e, junk)
  }

  /** DivideStep in terms of the whole arrays. */
  method DivideWindow(u: array<Digit>, v: array<Digit>, n: nat, m: nat, j: nat, wide: bool) returns (qd: Digit)
    requires u.Length == v.Length == 5 && u != v
    requires n >= 2 && n + m <= 4 && v[5 - n] > 0 && j <= m
    requires Val(u[..][4 - n - m + j..4 - n - m + j + n]) < Val(v[5 - n..])
    modifies u
    ensures Stepped(old(u[..]), u[..], Val(v[5 - n..]), n, m, j, wide)
    ensures qd == Quo(Window(old(u[..]), 4 - n - m + j, n), Val(v[5 - n..]))
  {
    ghost var us, w, d := u[..], 4 - n - m + j, v[5 - n..];
    assert d == v[4 - n + 1..4 - n + n + 1];
    assert us[w..w + n] == u[w..w + n] && us[w..w + n + 1] == u[w..w + n + 1];
    qd := DivideStep(u, 4 - n - m + j, v, 4 - n, n, wide);
    assert d == v[5 - n..] && u[..][w + 1..w + n + 1] == u[w + 1..w + n + 1];
    WindowStepped(us, u[..], Val(d), n, m, j, wide, Val(us[w..w + n + 1]), Val(u[..][w + 1..w + n + 1]));
  }

  lemma WindowStepped(us: seq<Digit>, us': seq<Digit>, v: nat, n: nat, m: nat, j: nat, wide: bool, u: nat, r: nat)
    requires |us| == |us'| == 5 && n + m <= 4 && j <= m && FullDivisor(v, n) && v > 0
    requires forall x :: 0 <= x < 5 && !(4 - n - m + j <= x <= 4 - n - m + j + n) ==> us'[x] == us[x]
    requires u == Window(us, 4 - n - m + j, n) && r == Val(us'[4 - n - m + j + 1..4 - n - m + j + n + 1])
    requires Quo(u, v) < BASE
    requires if wide || Estimate(u, v, n) == Quo(u, v) then us'[4 - n - m + j] == 0 && r == Rem(u, v)
             else us'[4 - n - m + j] == BASE - 1 && 0 <= Underflowed(u, v, n)
                  && r + Dropped(Underflowed(u, v, n), v, n) == Rem(u, v)
    ensures Stepped(us, us', v, n, m, j, wide)
  {}

  /** One round of the loop. */
  method DivideRound(u: array<Digit>, v: array<Digit>, n: nat, m: nat, j: nat, wide: bool, ghost qs: seq<Digit>,
                     ghost ds: seq<Digit>, ghost e: nat, ghost junk: int)
      returns (qd: Digit, ghost e': nat, ghost junk': int)
    requires u.Length == v.Length == 5 && u != v
    requires n >= 2 && n + m <= 4 && v[5 - n] > 0 && j <= m
    requires Running(u[..], qs, ds, Val(v[5 - n..]), n, m, j, e, junk, wide)
    modifies u
    ensures Running(u[..], qs + [qd], ds, Val(v[5 - n..]), n, m, j + 1, e', junk', wide)
  {
    ghost var us, vd := u[..], Val(v[5 - n..]);
    qd := DivideWindow(u, v, n, m, j, wide);
    e', junk' := SteppedRound(us, u[..], qs, ds, vd, n, m, j, e, junk, wide);
    if !wide {
      WindowForetold(us, ds, vd, n, m, j);
      ForetoldNext(us, u[..], ds, vd, n, m, j, e, junk, e', junk', Window(us, 4 - n - m + j, n),
                   Val(u[..][4 - n - m + j + 1..4 - n - m + j + n + 1]));
    }
  }

  lemma FirstDigitFull(s: seq<Digit>, n: nat)
    requires n >= 2 && |s| == n && s[0] > 0
    ensures FullDivisor(Val(s), n) && Val(s) > 0
  {
    LeadingDigits2(s, n);
    DropKeep(Val(s), n - 2);
    ScaleMono(0, Drop(Val(s), n - 2), n - 2);
  }

  /** The division loop. The quotient digits, which the code stores one after the other in
      `q`, are returned as a sequence. */
  method DivideDigits(u: array<Digit>, v: array<Digit>, n: nat, m: nat, wide: bool)
      returns (qs: seq<Digit>, ghost e: nat, ghost junk: int)
    requires u.Length == v.Length == 5 && u != v
    requires n >= 2 && n + m <= 4 && v[5 - n] > 0
    requires Val(u[4 - n - m..4 - m]) < Val(v[5 - n..])
    requires forall x :: 0 <= x < 4 - n - m ==> u[x] == 0
    modifies u
    ensures Running(u[..], qs, old(u[4 - n - m..]), Val(v[5 - n..]), n, m, m + 1, e, junk, wide)
  {
    ghost var ds, vs := u[4 - n - m..], v[5 - n..];
    var j := 0;
    qs, e, junk := [], 0, -1;
    assert u[..][4 - n - m..4 - m] == u[4 - n - m..4 - m];
    RunningStart(u[..], ds, vs, n, m, wide);
    while j <= m
      invariant 0 <= j <= m + 1
      invariant Running(u[..], qs, ds, Val(vs), n, m, j, e, junk, wide)
    {
      assert v[5 - n..] == vs;
      var qd;
      qd, e, junk := DivideRound(u, v, n, m, j, wide, qs, ds, e, junk);
      assert v[5 - n..] == vs;
      qs, j := qs + [qd], j + 1;
    }
    assert v[5 - n..] == vs;
  }

  lemma RunningStart(us: seq<Digit>, ds: seq<Digit>, vs: seq<Digit>, n: nat, m: nat, wide: bool)
    requires |us| == 5 && n + m <= 4 && ds == us[4 - n - m..] && Val(us[4 - n - m..4 - m]) < Val(vs)
    requires forall x :: 0 <= x < 4 - n - m ==> us[x] == 0
    requires n >= 2 && |vs| == n && vs[0] > 0
    ensures Running(us, [], ds, Val(vs), n, m, 0, 0, -1, wide)
  {
    FirstDigitFull(vs, n);
    RoundStart(us, ds, Val(vs), n, m);
    ForetoldStart(us, ds, Val(vs), n, m);
  }

  lemma RoundStart(us: seq<Digit>, ds: seq<Digit>, v: nat, n: nat, m: nat)
    requires |us| == 5 && n + m <= 4 && ds == us[4 - n - m..] && Val(us[4 - n - m..4 - m]) < v
    requires forall x :: 0 <= x < 4 - n - m ==> us[x] == 0
    ensures Round(us, [], ds, v, n, m, 0, 0, -1)
  {
    assert ds[..n] == us[4 - n - m..4 - m] && us[4 - m..] == ds[n..];
  }

  lemma ForetoldStart(us: seq<Digit>, ds: seq<Digit>, v: nat, n: nat, m: nat)
    requires |us| == 5 && n + m <= 4 && ds == us[4 - n - m..] && FullDivisor(v, n) && v > 0
    ensures Foretold(us, ds, v, n, m, 0, 0, -1)
  {
    ValPrefix(ds, n);
    assert us[4 - n - m + 0..4 - n - m + 0 + n] == ds[..n];
  }
}
