/** The connection pool: every connection the factory made is pooled, lent or released, once. */
module ConnPool {

  /** Connections are numbered in the order the factory makes them. */
  datatype State = State(conns: seq<nat>, cap: nat, initialCap: nat, made: nat, lent: set<nat>, released: seq<nat>)

  function Init(initialCap: nat, maxCap: nat): State { State([], maxCap, initialCap, 0, {}, []) }

  datatype Step =
    | Fill(async: bool, fails: nat -> bool)
    | Get(refused: bool)
    | Put(conn: nat)
    | PutNil
    | ReleaseAll

  /** Only a lent connection can be handed back. */
  predicate Enabled(s: State, step: Step) { step.Put? ==> step.conn in s.lent }

  /** A non-blocking send into the channel, or the connection is released. */
  function Offer(s: State, c: nat): State {
    if |s.conns| < s.cap then s.(conns := s.conns + [c]) else s.(released := s.released + [c])
  }

  /** The fill loop from turn `i` on, with the error it returns; `break` inside the select leaves only the select. */
  function Filled(s: State, i: nat, async: bool, fails: nat -> bool): (State, bool)
    decreases s.initialCap - i
  {
    if i >= s.initialCap then (s, false)
    else if fails(i) then (if async then Filled(s, i + 1, async, fails) else (s, true))
    else
      var t := Offer(s.(made := s.made + 1), s.made);
      if |t.conns| >= t.initialCap then (t, false) else Filled(t, i + 1, async, fails)
  }

  function Apply(s: State, step: Step): State
    requires Enabled(s, step)
  {
    match step
    case Fill(async, fails) => Filled(s, 0, async, fails).0
    case Get(fails) =>
      if s.conns != [] then s.(conns := s.conns[1..], lent := s.lent + {s.conns[0]})
      else if fails then s
      else s.(made := s.made + 1, lent := s.lent + {s.made})
    case Put(c) => Offer(s.(lent := s.lent - {c}), c)
    case PutNil => s
    case ReleaseAll => s.(released := s.released + s.conns, conns := [], cap := s.initialCap)
  }

  /** In how many places a connection is: in the pool, on loan, or released, each counted as often as it is there. */
  function Places(s: State, c: nat): nat {
    multiset(s.conns)[c] + (if c in s.lent then 1 else 0) + multiset(s.released)[c]
  }

  ghost predicate Inv(s: State) {
    |s.conns| <= s.cap && forall c: nat {:trigger Places(s, c)} :: Places(s, c) == if c < s.made then 1 else 0
  }

  lemma OfferMoves(s: State, c: nat, d: nat)
    requires |s.conns| <= s.cap
    ensures |Offer(s, c).conns| <= s.cap && Offer(s, c).cap == s.cap
    ensures Places(Offer(s, c), d) == Places(s, d) + if c == d then 1 else 0
  {
  }

  /** Making one connection and offering it to the pool. */
  lemma MakeOne(s: State)
    requires Inv(s)
    ensures Inv(Offer(s.(made := s.made + 1), s.made))
  {
    var t := s.(made := s.made + 1);
    forall c: nat ensures Places(Offer(t, s.made), c) == if c < t.made then 1 else 0 {
      OfferMoves(t, s.made, c);
      assert Places(t, c) == Places(s, c);
    }
  }

  lemma {:induction false} FillKeepsInv(s: State, i: nat, async: bool, fails: nat -> bool)
    requires Inv(s)
    ensures Inv(Filled(s, i, async, fails).0)
    decreases s.initialCap - i
  {
    if i < s.initialCap {
      if fails(i) {
        if async { FillKeepsInv(s, i + 1, async, fails); }
      } else {
        MakeOne(s);
        var t := Offer(s.(made := s.made + 1), s.made);
        if |t.conns| < t.initialCap { FillKeepsInv(t, i + 1, async, fails); }
      }
    }
  }

  lemma GetKeepsPlaces(s: State, fails: bool, c: nat)
    requires Inv(s)
    ensures var t := Apply(s, Get(fails)); Places(t, c) == if c < t.made then 1 else 0
  {
    assert Places(s, c) == if c < s.made then 1 else 0;
    if s.conns != [] {
      assert s.conns == [s.conns[0]] + s.conns[1..];
      assert Places(s, s.conns[0]) <= 1;
    } else {
      assert Places(s, s.made) == 0;
    }
  }

  lemma PutKeepsPlaces(s: State, conn: nat, c: nat)
    requires Inv(s) && conn in s.lent
    ensures Places(Apply(s, Put(conn)), c) == if c < s.made then 1 else 0
  {
    assert Places(s, c) == if c < s.made then 1 else 0;
    OfferMoves(s.(lent := s.lent - {conn}), conn, c);
  }

  lemma ReleaseKeepsPlaces(s: State, c: nat)
    requires Inv(s)
    ensures Places(Apply(s, ReleaseAll), c) == if c < s.made then 1 else 0
  {
    assert Places(s, c) == if c < s.made then 1 else 0;
    assert multiset(s.released + s.conns) == multiset(s.released) + multiset(s.conns);
  }

  lemma StepKeepsInv(s: State, step: Step)
    requires Inv(s) && Enabled(s, step)
    ensures Inv(Apply(s, step))
  {
    var t := Apply(s, step);
    if step.Fill? {
      FillKeepsInv(s, 0, step.async, step.fails);
    } else if step.Get? {
      forall c: nat ensures Places(t, c) == if c < t.made then 1 else 0 { GetKeepsPlaces(s, step.refused, c); }
    } else if step.Put? {
      forall c: nat ensures Places(t, c) == if c < t.made then 1 else 0 { PutKeepsPlaces(s, step.conn, c); }
      OfferMoves(s.(lent := s.lent - {step.conn}), step.conn, 0);
    } else if step.ReleaseAll? {
      forall c: nat ensures Places(t, c) == if c < t.made then 1 else 0 { ReleaseKeepsPlaces(s, c); }
    }
  }

  predicate IsRun(s: State, run: seq<Step>)
    decreases |run|
  {
    run == [] || (Enabled(s, run[0]) && IsRun(Apply(s, run[0]), run[1..]))
  }

  function After(s: State, run: seq<Step>): State
    requires IsRun(s, run)
    decreases |run|
  {
    if run == [] then s else After(Apply(s, run[0]), run[1..])
  }

  lemma {:induction false} RunKeepsInv(s: State, run: seq<Step>)
    requires Inv(s) && IsRun(s, run)
    ensures Inv(After(s, run))
    decreases |run|
  {
    if run != [] {
      StepKeepsInv(s, run[0]);
      RunKeepsInv(Apply(s, run[0]), run[1..]);
    }
  }

  /** In all runs every connection ever made is in exactly one place, and the pool stays within its channel. */
  lemma EveryConnectionOnce(initialCap: nat, maxCap: nat, run: seq<Step>, c: nat)
    requires IsRun(Init(initialCap, maxCap), run)
    ensures var s := After(Init(initialCap, maxCap), run);
      && |s.conns| <= s.cap
      && Places(s, c) == (if c < s.made then 1 else 0)
  {
    var s := Init(initialCap, maxCap);
    forall c: nat ensures Places(s, c) == 0 {
    }
    RunKeepsInv(s, run);
  }

  function Min(a: nat, b: nat): nat { if a <= b then a else b }

  /** A fill without failures tops the pool up to the smaller of the initial size and the channel. */
  lemma {:induction false} FillTopsUp(s: State, i: nat, async: bool, fails: nat -> bool)
    requires |s.conns| <= s.cap && |s.conns| < s.initialCap && i <= s.initialCap
    requires forall j: nat :: !fails(j)
    requires |s.conns| == s.cap || s.initialCap - i >= s.initialCap - |s.conns|
    ensures |Filled(s, i, async, fails).0.conns| == Min(s.initialCap, s.cap)
    ensures !Filled(s, i, async, fails).1
    decreases s.initialCap - i
  {
    if i < s.initialCap {
      var t := Offer(s.(made := s.made + 1), s.made);
      if |t.conns| < t.initialCap { FillTopsUp(t, i + 1, async, fails); }
    }
  }

  /** How many of the turns from `i` on the factory answers. */
  function Answers(fails: nat -> bool, i: nat, n: nat): nat
    decreases n - i
  {
    if i >= n then 0 else (if fails(i) then 0 else 1) + Answers(fails, i + 1, n)
  }

  /** Whatever fails, a fill only adds: new connections at the end of the pool while there is room, the others released.
      It ends early only with a pool of the initial size, or with the error of a synchronous fill's first failure. */
  lemma {:induction false} FillOnlyAdds(s: State, i: nat, async: bool, fails: nat -> bool)
    ensures var (t, err) := Filled(s, i, async, fails);
      && s.conns <= t.conns && s.released <= t.released && t.lent == s.lent
      && t.cap == s.cap && t.initialCap == s.initialCap && t.made >= s.made
      && |t.conns| - |s.conns| + |t.released| - |s.released| == t.made - s.made
      && (err ==> !async && exists j: nat :: i <= j < s.initialCap && fails(j))
      && (!err && |t.conns| < s.initialCap ==> t.made - s.made == Answers(fails, i, s.initialCap))
      && (!err && !async && |t.conns| < s.initialCap ==> forall j: nat :: i <= j < s.initialCap ==> !fails(j))
    decreases s.initialCap - i
  {
    if i < s.initialCap {
      if fails(i) {
        if async { FillOnlyAdds(s, i + 1, async, fails); }
      } else {
        var t := Offer(s.(made := s.made + 1), s.made);
        if |t.conns| < t.initialCap {
          FillOnlyAdds(t, i + 1, async, fails);
        }
      }
    }
  }

  /** A connection is only released for want of room. */
  lemma {:induction false} FillReleasesWhenFull(s: State, i: nat, async: bool, fails: nat -> bool)
    requires |s.conns| <= s.cap
    ensures var t := Filled(s, i, async, fails).0; |t.conns| <= s.cap && (t.released != s.released ==> |t.conns| == s.cap)
    decreases s.initialCap - i
  {
    if i < s.initialCap {
      if fails(i) {
        if async { FillReleasesWhenFull(s, i + 1, async, fails); }
      } else {
        var t := Offer(s.(made := s.made + 1), s.made);
        if |t.conns| < t.initialCap {
          FillReleasesWhenFull(t, i + 1, async, fails);
          FillOnlyAdds(t, i + 1, async, fails);
        }
      }
    }
  }

  /** The background fill as the daemon guards it: at or below half. */
  lemma HalfEmptyPoolIsRefilled(s: State, async: bool, fails: nat -> bool)
    requires |s.conns| <= s.cap && s.initialCap > 0 && |s.conns| <= s.initialCap / 2
    requires forall j: nat :: !fails(j)
    ensures |Apply(s, Fill(async, fails)).conns| == Min(s.initialCap, s.cap)
  {
    FillTopsUp(s, 0, async, fails);
  }

  // ---------- The pool object ----------

  class NetPool {
    const initialCap: nat
    var conns: seq<nat>
    var cap: nat
    var made: nat
    var lent: set<nat>
    var released: seq<nat>

    function View(): State
      reads this
    {
      State(conns, cap, initialCap, made, lent, released)
    }

    /** NewConnPool before its first fill. */
    constructor (initialCap: nat, maxCap: nat)
      ensures View() == Init(initialCap, maxCap)
    {
      this.initialCap := initialCap;
      conns, cap, made, lent, released := [], maxCap, 0, {}, [];
    }

    method Offered(c: nat)
      modifies this
      ensures View() == Offer(old(View()), c)
    {
      if |conns| < cap { conns := conns + [c]; } else { released := released + [c]; }
    }

    /** One pass of the fill worker, under the lock. */
    method FillPool(async: bool, fails: nat -> bool) returns (err: bool)
      modifies this
      ensures (View(), err) == Filled(old(View()), 0, async, fails)
    {
      err := false;
      var i := 0;
      while i < initialCap
        invariant 0 <= i <= initialCap && !err
        invariant Filled(View(), i, async, fails) == Filled(old(View()), 0, async, fails)
      {
        if fails(i) {
          if !async { return true; }
        } else {
          var c := made;
          made := made + 1;
          Offered(c);
          if |conns| >= initialCap { return false; }
        }
        i := i + 1;
      }
    }

    method GetConn(fails: bool) returns (conn: nat, err: bool)
      modifies this
      ensures View() == Apply(old(View()), Get(fails))
      ensures err <==> old(conns) == [] && fails
      ensures err ==> View() == old(View())
      ensures !err ==> lent == old(lent) + {conn} && released == old(released) && cap == old(cap)
      ensures conns == if old(conns) == [] then [] else old(conns)[1..]
      ensures !err ==> conn in lent && conn == if old(conns) != [] then old(conns)[0] else old(made)
    {
      conn, err := 0, false;
      if conns != [] {
        conn, conns := conns[0], conns[1..];
        lent := lent + {conn};
      } else if fails {
        err := true;
      } else {
        conn, made := made, made + 1;
        lent := lent + {conn};
      }
    }

    method PutConn(conn: nat)
      requires conn in lent
      modifies this
      ensures View() == Apply(old(View()), Put(conn))
      ensures lent == old(lent) - {conn} && made == old(made) && cap == old(cap)
      ensures if old(|conns|) < cap then conns == old(conns) + [conn] && released == old(released)
              else conns == old(conns) && released == old(released) + [conn]
    {
      lent := lent - {conn};
      Offered(conn);
    }

    method Release()
      modifies this
      ensures View() == Apply(old(View()), ReleaseAll)
      ensures conns == [] && released == old(released) + old(conns) && cap == initialCap
      ensures lent == old(lent) && made == old(made)
    {
      ghost var all := released + conns;
      while conns != []
        invariant released + conns == all
        invariant cap == old(cap) && made == old(made) && lent == old(lent)
        decreases |conns|
      {
        released, conns := released + [conns[0]], conns[1..];
      }
      cap := initialCap;
    }
  }
}
