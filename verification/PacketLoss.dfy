/**
 The loss function of the tunnel: which packets are dropped, and exactly how many.
 */
module PacketLoss {
  /** The first id of the pattern, and how many packets then pass and are dropped in turn. */
  datatype LossParams = LossParams(x0: int, up: nat, down: nat, enabled: bool)

  predicate Periodic(p: LossParams) {
    p.up + p.down > 0
  }

  /** Division that truncates toward zero. */
  function Quotient(a: int, b: int): int
    requires b > 0
  {
    if a >= 0 then a / b else 0 - ((0 - a) / b)
  }

  predicate CheckLossGap(p: LossParams, id: int)
    requires Periodic(p)
  {
    var fullPeriod := Quotient(id - p.x0, p.up + p.down);
    var local := (id - p.x0) - fullPeriod * (p.up + p.down);
    !(local - p.up < 0)
  }

  predicate Loss(p: LossParams, id: int)
    requires Periodic(p)
  {
    p.enabled && CheckLossGap(p, id)
  }

  lemma {:induction false} LocalIs(a: int, b: int)
    requires b > 0
    ensures a >= 0 ==> a - Quotient(a, b) * b == a % b
    ensures a < 0 ==> a - Quotient(a, b) * b == 0 - (0 - a) % b
  {
    var q := if a >= 0 then a / b else (0 - a) / b;
    if a >= 0 {
      assert a == b * q + a % b;
    } else {
      assert 0 - a == b * q + (0 - a) % b;
      assert (0 - q) * b == 0 - b * q;
    }
  }

  /**
   From the first id on, the last `down` packets of every period are dropped.  Before it, none is, unless no packet
   passes at all: then those a whole number of periods before it are dropped too.
   */
  lemma {:induction false} LossIs(p: LossParams, id: int)
    requires Periodic(p) && p.enabled
    ensures id >= p.x0 ==> (Loss(p, id) <==> (id - p.x0) % (p.up + p.down) >= p.up)
    ensures id < p.x0 ==> (Loss(p, id) <==> p.up == 0 && (p.x0 - id) % p.down == 0)
  {
    LocalIs(id - p.x0, p.up + p.down);
  }

  /** How many of the packets 1 to `n` are dropped. */
  function Dropped(p: LossParams, n: nat): nat
    requires Periodic(p)
  {
    if n == 0 then 0 else Dropped(p, n - 1) + (if Loss(p, n) then 1 else 0)
  }

  /** How many of the first `m` packets of the pattern are dropped. */
  function Late(p: LossParams, m: nat): nat
    requires Periodic(p)
  {
    var rest := m % (p.up + p.down);
    m / (p.up + p.down) * p.down + (if rest > p.up then rest - p.up else 0)
  }

  lemma {:induction false} LateStep(p: LossParams, m: nat)
    requires Periodic(p)
    ensures Late(p, m + 1) == Late(p, m) + (if m % (p.up + p.down) >= p.up then 1 else 0)
  {
    var period := p.up + p.down;
    var q, r := m / period, m % period;
    assert m == period * q + r;
    if r + 1 < period {
      DivisionOf(m + 1, period, q, r + 1);
    } else {
      assert period * (q + 1) == period * q + period;
      DivisionOf(m + 1, period, q + 1, 0);
      assert (q + 1) * p.down == q * p.down + p.down;
    }
  }

  lemma {:induction false} DivisionOf(x: nat, b: nat, q: nat, r: nat)
    requires b > 0 && x == b * q + r && r < b
    ensures x / b == q && x % b == r
  {
    var h, l := x / b, x % b;
    assert x == b * h + l;
    if h < q {
      Multiples(b, h + 1, q);
    } else if h > q {
      Multiples(b, q + 1, h);
    }
  }

  lemma {:induction false} Multiples(b: nat, m: nat, n: nat)
    requires m <= n
    ensures b * m <= b * n && b * m == b * (m - 1) + b
  {
    assert b * n == b * m + b * (n - m);
  }

  /** How many of the packets 1 to `n`, before the first id, are dropped. */
  function Early(p: LossParams, n: nat): int
    requires Periodic(p) && n < p.x0
  {
    if p.up > 0 then 0 else (p.x0 - 1) / p.down - (p.x0 - 1 - n) / p.down
  }

  lemma {:induction false} EarlyStep(p: LossParams, n: nat)
    requires Periodic(p) && p.up == 0 && 1 <= n < p.x0
    ensures (p.x0 - n) / p.down == (p.x0 - 1 - n) / p.down + (if (p.x0 - n) % p.down == 0 then 1 else 0)
  {
    var x, b := p.x0 - 1 - n, p.down;
    var q, r := x / b, x % b;
    assert x == b * q + r;
    if r + 1 < b {
      DivisionOf(x + 1, b, q, r + 1);
    } else {
      assert b * (q + 1) == b * q + b;
      DivisionOf(x + 1, b, q + 1, 0);
    }
  }

  lemma {:induction false} EarlyCount(p: LossParams, n: nat)
    requires Periodic(p) && p.enabled && n < p.x0
    ensures Dropped(p, n) == Early(p, n)
  {
    if n > 0 {
      EarlyCount(p, n - 1);
      LossIs(p, n);
      if p.up == 0 { EarlyStep(p, n); }
    }
  }

  /** Exactly how many packets are dropped among the first `n`. */
  lemma {:induction false} DroppedCount(p: LossParams, n: nat)
    requires Periodic(p) && p.x0 >= 1
    ensures !p.enabled ==> Dropped(p, n) == 0
    ensures p.enabled && n < p.x0 ==> Dropped(p, n) == Early(p, n)
    ensures p.enabled && n >= p.x0 ==> Dropped(p, n) == Early(p, p.x0 - 1) + Late(p, n - p.x0 + 1)
    ensures p.enabled && p.up > 0 ==> Dropped(p, n) == if n < p.x0 then 0 else Late(p, n - p.x0 + 1)
  {
    if !p.enabled {
      NothingDropped(p, n);
    } else if n < p.x0 {
      EarlyCount(p, n);
    } else {
      DroppedCount(p, n - 1);
      LossIs(p, n);
      LateStep(p, n - p.x0);
      if n == p.x0 { LateNothing(p); }
    }
  }

  lemma {:induction false} LatePeriod(p: LossParams, m: nat)
    requires Periodic(p)
    ensures Late(p, m + p.up + p.down) == Late(p, m) + p.down
  {
    var period := p.up + p.down;
    var q, r := m / period, m % period;
    assert m == period * q + r;
    assert period * (q + 1) == period * q + period;
    DivisionOf(m + period, period, q + 1, r);
    assert (q + 1) * p.down == q * p.down + p.down;
  }

  /** Any whole period of consecutive packets, from the first id on, loses exactly `down`. */
  lemma {:induction false} PeriodLoses(p: LossParams, n: nat)
    requires Periodic(p) && p.enabled && p.x0 >= 1 && n >= p.x0 - 1
    ensures Dropped(p, n + p.up + p.down) == Dropped(p, n) + p.down
  {
    DroppedCount(p, n);
    DroppedCount(p, n + p.up + p.down);
    LatePeriod(p, n - p.x0 + 1);
    if n == p.x0 - 1 { LateNothing(p); }
  }

  lemma {:induction false} LateNothing(p: LossParams)
    requires Periodic(p)
    ensures Late(p, 0) == 0
  {
    DivisionOf(0, p.up + p.down, 0, 0);
  }

  lemma {:induction false} NothingDropped(p: LossParams, n: nat)
    requires Periodic(p) && !p.enabled
    ensures Dropped(p, n) == 0
  {
    if n > 0 { NothingDropped(p, n - 1); }
  }

  /** With nothing passing, packets before the first id are dropped: the seventh of a pattern of ten from id 17 on, for one. */
  lemma {:induction false} EarlyDropExample()
    ensures Loss(LossParams(17, 0, 10, true), 7) && !Loss(LossParams(17, 0, 10, true), 8)
  {
    LossIs(LossParams(17, 0, 10, true), 7);
    LossIs(LossParams(17, 0, 10, true), 8);
  }
}
