/**
  The listener tables of TinyFrame.c as values: what TF_Add*Listener and
  TF_Remove*Listener compute, and the order in which
  TF_HandleReceivedMessage offers a frame to the listeners. The class in
  Framing.dfy performs the same operations in place on arrays and is
  proved to agree with these functions.

  A TF_LISTENER is foreign code. A registered listener is an opaque
  `Handle`; what it returns when called is given by a `Claims` oracle.
*/
module Registry {
  import opened Wire
  import opened Protocol

  /** A non-null TF_LISTENER. */
  datatype Handle = Handle(ref: nat)

  /** A slot of id_listeners or type_listeners: the key and the callback (None is NULL). */
  datatype Slot = Slot(key: nat, fn: Option<Handle>)

  /** An ID or type table: its slots and count_*_lst. */
  datatype Table = Table(slots: seq<Slot>, count: nat)

  /** The generic table: its callbacks and count_generic_lst. */
  datatype GenTable = GenTable(fns: seq<Option<Handle>>, count: nat)

  /** What a listener returns for a frame: true consumes it. */
  type Claims = (Handle, Frame) -> bool

  // ---------------------------------------------------------------------
  // The high-water count
  // ---------------------------------------------------------------------

  /** The callbacks of a keyed table. */
  function Fns(slots: seq<Slot>): (r: seq<Option<Handle>>)
    ensures |r| == |slots| && forall i | 0 <= i < |slots| :: r[i] == slots[i].fn
  {
    seq(|slots|, i requires 0 <= i < |slots| => slots[i].fn)
  }

  /**
    The count is a high-water mark: it never exceeds the capacity and
    every slot at or above it is free, so loops bounded by the count see
    every registered listener.
  */
  predicate HighWater(fns: seq<Option<Handle>>, count: nat)
  {
    count <= |fns| && forall i | count <= i < |fns| :: fns[i].None?
  }

  predicate TableInv(t: Table)
  {
    HighWater(Fns(t.slots), t.count)
  }

  predicate GenInv(g: GenTable)
  {
    HighWater(g.fns, g.count)
  }

  // ---------------------------------------------------------------------
  // Adding
  // ---------------------------------------------------------------------

  /** The lowest free slot at index `i` or above. */
  function FirstFree(fns: seq<Option<Handle>>, i: nat): (r: Option<nat>)
    requires i <= |fns|
    ensures r.Some? ==> i <= r.value < |fns| && fns[r.value].None?
                        && forall j | i <= j < r.value :: fns[j].Some?
    ensures r.None? ==> forall j | i <= j < |fns| :: fns[j].Some?
    decreases |fns| - i
  {
    if i == |fns| then None
    else if fns[i].None? then Some(i)
    else FirstFree(fns, i + 1)
  }

  /** `if (i >= count) count = i + 1;` */
  function Raise(count: nat, i: nat): nat
  {
    if i >= count then i + 1 else count
  }

  /** TF_AddIdListener / TF_AddTypeListener: fill the lowest free slot. */
  function AddKeyed(t: Table, key: nat, h: Handle): (r: (bool, Table))
  {
    match FirstFree(Fns(t.slots), 0)
    case None => (false, t)
    case Some(i) => (true, Table(t.slots[i := Slot(key, Some(h))], Raise(t.count, i)))
  }

  /** TF_AddGenericListener. */
  function AddGeneric(g: GenTable, h: Handle): (r: (bool, GenTable))
  {
    match FirstFree(g.fns, 0)
    case None => (false, g)
    case Some(i) => (true, GenTable(g.fns[i := Some(h)], Raise(g.count, i)))
  }

  /**
    Adding succeeds iff some slot is free. On success the lowest free slot,
    and no other, receives the listener and its key, the count covers it,
    and the high-water invariant is kept. On failure nothing changes.
  */
  lemma AddKeyedSpec(t: Table, key: nat, h: Handle)
    requires TableInv(t)
    ensures var r := AddKeyed(t, key, h);
            && TableInv(r.1)
            && (r.0 <==> exists i | 0 <= i < |t.slots| :: t.slots[i].fn.None?)
            && (!r.0 ==> r.1 == t)
            && (r.0 ==> exists i | 0 <= i < |t.slots| ::
                          && t.slots[i].fn.None? && (forall j | 0 <= j < i :: t.slots[j].fn.Some?)
                          && r.1.slots == t.slots[i := Slot(key, Some(h))]
                          && r.1.count == (if i >= t.count then i + 1 else t.count))
  {
    var f := FirstFree(Fns(t.slots), 0);
    if f.Some? {
      var i := f.value;
      var u := t.slots[i := Slot(key, Some(h))];
      assert forall j | Raise(t.count, i) <= j < |u| :: Fns(u)[j] == t.slots[j].fn;
    } else {
      assert forall j | 0 <= j < |t.slots| :: t.slots[j].fn == Fns(t.slots)[j];
    }
  }

  /** The same for the generic table. */
  lemma AddGenericSpec(g: GenTable, h: Handle)
    requires GenInv(g)
    ensures var r := AddGeneric(g, h);
            && GenInv(r.1)
            && (r.0 <==> exists i | 0 <= i < |g.fns| :: g.fns[i].None?)
            && (!r.0 ==> r.1 == g)
            && (r.0 ==> exists i | 0 <= i < |g.fns| ::
                          && g.fns[i].None? && (forall j | 0 <= j < i :: g.fns[j].Some?)
                          && r.1.fns == g.fns[i := Some(h)]
                          && r.1.count == (if i >= g.count then i + 1 else g.count))
  {
  }

  // ---------------------------------------------------------------------
  // Removing
  // ---------------------------------------------------------------------

  /** A registered listener for `key` in this slot. */
  predicate Holds(s: Slot, key: nat)
  {
    s.fn.Some? && s.key == key
  }

  /** The first slot from `i` on, below the count, registered for `key`. */
  function FirstMatch(t: Table, key: nat, i: nat): (r: Option<nat>)
    requires t.count <= |t.slots| && i <= t.count
    ensures r.Some? ==> i <= r.value < t.count && Holds(t.slots[r.value], key)
                        && forall j | i <= j < r.value :: !Holds(t.slots[j], key)
    ensures r.None? ==> forall j | i <= j < t.count :: !Holds(t.slots[j], key)
    decreases t.count - i
  {
    if i == t.count then None
    else if Holds(t.slots[i], key) then Some(i)
    else FirstMatch(t, key, i + 1)
  }

  /** The first slot from `i` on, below the count, whose callback equals `cb` (NULL included). */
  function FirstEqual(g: GenTable, cb: Option<Handle>, i: nat): (r: Option<nat>)
    requires g.count <= |g.fns| && i <= g.count
    ensures r.Some? ==> i <= r.value < g.count && g.fns[r.value] == cb
                        && forall j | i <= j < r.value :: g.fns[j] != cb
    ensures r.None? ==> forall j | i <= j < g.count :: g.fns[j] != cb
    decreases g.count - i
  {
    if i == g.count then None
    else if g.fns[i] == cb then Some(i)
    else FirstEqual(g, cb, i + 1)
  }

  /** `if (i == count - 1) count--;` */
  function Lower(count: nat, i: nat): nat
  {
    if i + 1 == count then count - 1 else count
  }

  /** TF_RemoveIdListener / TF_RemoveTypeListener: null the first matching slot. */
  function RemoveKeyed(t: Table, key: nat): (r: (bool, Table))
    requires t.count <= |t.slots|
  {
    match FirstMatch(t, key, 0)
    case None => (false, t)
    case Some(i) => (true, Table(t.slots[i := t.slots[i].(fn := None)], Lower(t.count, i)))
  }

  /** TF_RemoveGenericListener: compares the callback pointer itself. */
  function RemoveGeneric(g: GenTable, cb: Option<Handle>): (r: (bool, GenTable))
    requires g.count <= |g.fns|
  {
    match FirstEqual(g, cb, 0)
    case None => (false, g)
    case Some(i) => (true, GenTable(g.fns[i := None], Lower(g.count, i)))
  }

  /**
    Removing succeeds iff a listener is registered for the key anywhere in
    the table (the high-water invariant puts every one below the count).
    It nulls the first such slot only, lowers the count only when that
    slot was the last counted one, and keeps the invariant.
  */
  lemma RemoveKeyedSpec(t: Table, key: nat)
    requires TableInv(t)
    ensures var r := RemoveKeyed(t, key);
            && TableInv(r.1)
            && (r.0 <==> exists i | 0 <= i < |t.slots| :: Holds(t.slots[i], key))
            && (!r.0 ==> r.1 == t)
            && (r.0 ==> exists i | 0 <= i < t.count ::
                          && Holds(t.slots[i], key) && (forall j | 0 <= j < i :: !Holds(t.slots[j], key))
                          && r.1.slots == t.slots[i := Slot(key, None)]
                          && r.1.count == (if i == t.count - 1 then t.count - 1 else t.count))
  {
    var f := FirstMatch(t, key, 0);
    if f.Some? {
      var i := f.value;
      var u := t.slots[i := t.slots[i].(fn := None)];
      assert forall j | Lower(t.count, i) <= j < |u| :: Fns(u)[j].None? by {
        forall j | Lower(t.count, i) <= j < |u| ensures Fns(u)[j].None? {
          if j != i {
            assert Fns(t.slots)[j] == t.slots[j].fn;
          }
        }
      }
    } else {
      forall i | 0 <= i < |t.slots| ensures !Holds(t.slots[i], key) {
        if i >= t.count {
          assert Fns(t.slots)[i].None?;
        }
      }
    }
  }

  /**
    Removing a generic callback succeeds iff a slot below the count holds
    that exact pointer; only that slot changes, and the invariant is kept.
  */
  lemma RemoveGenericSpec(g: GenTable, cb: Option<Handle>)
    requires GenInv(g)
    ensures var r := RemoveGeneric(g, cb);
            && GenInv(r.1)
            && (r.0 <==> exists i | 0 <= i < g.count :: g.fns[i] == cb)
            && (!r.0 ==> r.1 == g)
            && (r.0 ==> exists i | 0 <= i < g.count ::
                          && g.fns[i] == cb && (forall j | 0 <= j < i :: g.fns[j] != cb)
                          && r.1.fns == g.fns[i := None]
                          && r.1.count == (if i == g.count - 1 then g.count - 1 else g.count))
  {
  }

  /**
    Add and remove are inverse on the callbacks: registering a listener
    for a key nobody listens to, then removing that key, leaves every slot
    holding what it held before.
  */
  lemma AddThenRemove(t: Table, key: nat, h: Handle)
    requires TableInv(t)
    requires forall i | 0 <= i < |t.slots| :: !Holds(t.slots[i], key)
    requires AddKeyed(t, key, h).0
    ensures var a := AddKeyed(t, key, h).1;
            TableInv(a) && RemoveKeyed(a, key).0 && Fns(RemoveKeyed(a, key).1.slots) == Fns(t.slots)
  {
    AddKeyedSpec(t, key, h);
    var a := AddKeyed(t, key, h).1;
    var i := FirstFree(Fns(t.slots), 0).value;
    assert Holds(a.slots[i], key);
    assert i < a.count;
    assert forall j | 0 <= j < |a.slots| && j != i :: a.slots[j] == t.slots[j];
    assert FirstMatch(a, key, 0) == Some(i);
    var u := RemoveKeyed(a, key).1.slots;
    assert Fns(u) == Fns(t.slots) by {
      forall j | 0 <= j < |u| ensures Fns(u)[j] == Fns(t.slots)[j] {
      }
    }
  }

  // ---------------------------------------------------------------------
  // Dispatch
  // ---------------------------------------------------------------------

  /** The listeners of slots `i` up to the count registered for `key`, in slot order. */
  function Matching(t: Table, key: nat, i: nat): seq<Handle>
    requires t.count <= |t.slots| && i <= t.count
    decreases t.count - i
  {
    if i == t.count then []
    else if Holds(t.slots[i], key) then [t.slots[i].fn.value] + Matching(t, key, i + 1)
    else Matching(t, key, i + 1)
  }

  /** The non-null generic listeners of slots `i` up to the count, in slot order. */
  function Live(g: GenTable, i: nat): seq<Handle>
    requires g.count <= |g.fns| && i <= g.count
    decreases g.count - i
  {
    if i == g.count then []
    else if g.fns[i].Some? then [g.fns[i].value] + Live(g, i + 1)
    else Live(g, i + 1)
  }

  /** Every listener registered for `key`, wherever its slot, is offered the frame. */
  lemma {:induction false} MatchingComplete(t: Table, key: nat, i: nat, j: nat)
    requires TableInv(t) && i <= t.count && i <= j < |t.slots| && Holds(t.slots[j], key)
    ensures t.slots[j].fn.value in Matching(t, key, i)
    decreases t.count - i
  {
    assert Fns(t.slots)[j] == t.slots[j].fn;
    if i < j {
      MatchingComplete(t, key, i + 1, j);
    }
  }

  /** The candidates for a frame: ID listeners, then type listeners, then generic ones. */
  function Candidates(ids: Table, types: Table, gens: GenTable, f: Frame): seq<Handle>
    requires ids.count <= |ids.slots| && types.count <= |types.slots| && gens.count <= |gens.fns|
  {
    Matching(ids, f.id, 0) + Matching(types, f.typ, 0) + Live(gens, 0)
  }

  /**
    The listeners called, in order: candidates are called until one
    returns true. The result is a prefix of the candidates, none but its
    last claims the frame, and it stops short only right after a claim.
  */
  function Dispatch(hs: seq<Handle>, claims: Claims, f: Frame): (r: seq<Handle>)
    ensures |r| <= |hs| && r == hs[..|r|]
    ensures forall j | 0 <= j < |r| - 1 :: !claims(r[j], f)
    ensures |r| < |hs| ==> |r| > 0 && claims(r[|r| - 1], f)
    decreases |hs|
  {
    if hs == [] then []
    else if claims(hs[0], f) then [hs[0]]
    else [hs[0]] + Dispatch(hs[1..], claims, f)
  }

  /**
    Priority: if an earlier group of candidates holds a listener that
    consumes the frame, no later candidate is called; otherwise the whole
    group is called and dispatch goes on with the next one.
  */
  lemma {:induction false} DispatchAppend(a: seq<Handle>, b: seq<Handle>, claims: Claims, f: Frame)
    ensures Dispatch(a + b, claims, f)
      == if exists h | h in a :: claims(h, f) then Dispatch(a, claims, f)
         else a + Dispatch(b, claims, f)
    decreases |a|
  {
    if a == [] {
      assert a + b == b;
    } else {
      assert (a + b)[0] == a[0];
      assert (a + b)[1..] == a[1..] + b;
      DispatchAppend(a[1..], b, claims, f);
      ClaimedCons(a, claims, f);
      if !claims(a[0], f) {
        ConsAppend(a, Dispatch(b, claims, f));
      }
    }
  }

  lemma ConsAppend<T>(a: seq<T>, d: seq<T>)
    requires a != []
    ensures a + d == [a[0]] + (a[1..] + d)
  {
    assert a == [a[0]] + a[1..];
  }

  /** Some candidate of `hs` consumes the frame iff the first one or one of the rest does. */
  lemma ClaimedCons(hs: seq<Handle>, claims: Claims, f: Frame)
    requires hs != []
    ensures (exists h | h in hs :: claims(h, f))
        <==> claims(hs[0], f) || exists h | h in hs[1..] :: claims(h, f)
  {
    assert hs == [hs[0]] + hs[1..];
  }

  /** Calling one more candidate: it either consumes the frame or dispatch goes on. */
  lemma DispatchCons(h: Handle, rest: seq<Handle>, claims: Claims, f: Frame)
    ensures Dispatch([h] + rest, claims, f)
      == if claims(h, f) then [h] else [h] + Dispatch(rest, claims, f)
  {
    assert ([h] + rest)[0] == h;
    assert ([h] + rest)[1..] == rest;
  }

  /** A frame handed to TF_HandleReceivedMessage and the listeners it was offered to, in order. */
  datatype Delivery = Delivery(frame: Frame, called: seq<Handle>)

  function Deliver(ids: Table, types: Table, gens: GenTable, claims: Claims, f: Frame): Delivery
    requires ids.count <= |ids.slots| && types.count <= |types.slots| && gens.count <= |gens.fns|
  {
    Delivery(f, Dispatch(Candidates(ids, types, gens, f), claims, f))
  }

  /** The deliveries of several frames, one after the other, with the tables unchanged. */
  function DeliverAll(ids: Table, types: Table, gens: GenTable, claims: Claims, fs: seq<Frame>)
    : (r: seq<Delivery>)
    requires ids.count <= |ids.slots| && types.count <= |types.slots| && gens.count <= |gens.fns|
    ensures |r| == |fs| && forall i | 0 <= i < |fs| :: r[i] == Deliver(ids, types, gens, claims, fs[i])
    decreases |fs|
  {
    if fs == [] then []
    else [Deliver(ids, types, gens, claims, fs[0])] + DeliverAll(ids, types, gens, claims, fs[1..])
  }

  lemma {:induction false} DeliverAllAppend(ids: Table, types: Table, gens: GenTable, claims: Claims,
                                           a: seq<Frame>, b: seq<Frame>)
    requires ids.count <= |ids.slots| && types.count <= |types.slots| && gens.count <= |gens.fns|
    ensures DeliverAll(ids, types, gens, claims, a + b)
      == DeliverAll(ids, types, gens, claims, a) + DeliverAll(ids, types, gens, claims, b)
    decreases |a|
  {
    if a == [] {
      assert a + b == b;
    } else {
      assert (a + b)[0] == a[0];
      assert (a + b)[1..] == a[1..] + b;
      DeliverAllAppend(ids, types, gens, claims, a[1..], b);
    }
  }

  /**
    Dispatch order of TF_HandleReceivedMessage: when an ID listener
    consumes the frame no type or generic listener is called; when a type
    listener does, no generic one is; otherwise every candidate up to the
    first generic listener that consumes it is called.
  */
  lemma DispatchOrder(ids: Table, types: Table, gens: GenTable, claims: Claims, f: Frame)
    requires ids.count <= |ids.slots| && types.count <= |types.slots| && gens.count <= |gens.fns|
    ensures var m1 := Matching(ids, f.id, 0);
            var m2 := Matching(types, f.typ, 0);
            var m3 := Live(gens, 0);
            Deliver(ids, types, gens, claims, f).called
              == if exists h | h in m1 :: claims(h, f) then Dispatch(m1, claims, f)
                 else if exists h | h in m2 :: claims(h, f) then m1 + Dispatch(m2, claims, f)
                 else m1 + m2 + Dispatch(m3, claims, f)
  {
    var m1 := Matching(ids, f.id, 0);
    var m2 := Matching(types, f.typ, 0);
    var m3 := Live(gens, 0);
    assert m1 + m2 + m3 == m1 + (m2 + m3);
    DispatchAppend(m1, m2 + m3, claims, f);
    DispatchAppend(m2, m3, claims, f);
  }
}
