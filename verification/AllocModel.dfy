// What allocation requests mean: the block sets of a transaction after each request, and how
// the queued requests relate to sets that lag behind.
module AllocModel {
  import opened AllocQueue

  // The sets of one transaction. `next` is the free set being built while it commits.
  datatype Sets = Sets(tmp: set<nat>, alloc: set<nat>, freed: set<nat>, next: set<nat>)

  // block_allocator_add_allocated and block_allocator_add_free; min is the part of `next`
  // that is already up to date.
  function Do(s: Sets, x: Item, min: nat): Sets
  {
    var b := x.block;
    if !x.free then
      if x.tmp then s.(tmp := s.tmp + {b})
      else s.(alloc := s.alloc + {b}, next := if b < min then s.next - {b} else s.next)
    else if x.tmp then s.(tmp := s.tmp - {b})
    else if b in s.alloc then s.(alloc := s.alloc - {b}, next := if b < min then s.next + {b} else s.next)
    else if b < min then s.(next := s.next + {b})
    else s.(freed := s.freed + {b})
  }

  // The two agree on block b.
  ghost predicate SameAt(s: Sets, t: Sets, b: nat)
  {
    (b in s.tmp <==> b in t.tmp) && (b in s.alloc <==> b in t.alloc) && (b in s.freed <==> b in t.freed)
      && (b in s.next <==> b in t.next)
  }

  // The set updates for x respect the sets: nothing is added twice or removed when absent.
  ghost predicate Ready(s: Sets, x: Item, min: nat, free: set<nat>)
  {
    var b := x.block;
    if !x.free then b in free && b !in s.alloc && b !in s.tmp && (!x.tmp && b < min ==> b in s.next)
    else if x.tmp then b in free && b in s.tmp && b !in s.alloc && b !in s.freed
    else b !in s.tmp && if b in s.alloc then b in free && (b < min ==> b !in s.next)
                        else b !in free && b !in s.freed && (b < min ==> b !in s.next)
  }

  // f is s with the live items applied.
  ghost predicate Ahead(f: Sets, s: Sets, items: seq<Item>, min: nat)
  {
    && (forall k :: 0 <= k < |items| && !items[k].removed ==> SameAt(f, Do(s, items[k], min), items[k].block))
    && (forall b :: !Live(items, b) ==> SameAt(f, s, b))
  }

  ghost predicate AllReady(s: Sets, items: seq<Item>, min: nat, free: set<nat>)
  {
    forall k :: 0 <= k < |items| && !items[k].removed ==> Ready(s, items[k], min, free)
  }

  // An item and its opposite leave the sets as they were.
  lemma DoUndo(s: Sets, x: Item, y: Item, min: nat, free: set<nat>)
    requires Ready(s, x, min, free) && x.block == y.block && x.tmp == y.tmp && x.free != y.free
             && Ready(Do(s, x, min), y, min, free)
    ensures SameAt(Do(Do(s, x, min), y, min), s, x.block)
  {
  }

  lemma DoSame(s: Sets, t: Sets, x: Item, min: nat, free: set<nat>)
    requires SameAt(s, t, x.block)
    ensures SameAt(Do(s, x, min), Do(t, x, min), x.block) && (Ready(s, x, min, free) <==> Ready(t, x, min, free))
  {
  }

  lemma DoOther(s: Sets, x: Item, min: nat, b: nat)
    requires b != x.block
    ensures SameAt(Do(s, x, min), s, b)
  {
  }

  // A request without a live item for its block is queued.
  lemma {:induction false} AheadAdd(f: Sets, s: Sets, items: seq<Item>, x: Item, min: nat, free: set<nat>)
    requires Ahead(f, s, items, min) && AllReady(s, items, min, free) && !Live(items, x.block) && !x.removed
             && Ready(f, x, min, free)
    ensures Ahead(Do(f, x, min), s, items + [x], min) && AllReady(s, items + [x], min, free)
  {
    var D, g := items + [x], Do(f, x, min);
    DoSame(f, s, x, min, free);
    forall k | 0 <= k < |D| && !D[k].removed
      ensures SameAt(g, Do(s, D[k], min), D[k].block) && Ready(s, D[k], min, free)
    {
      if k < |items| {
        assert LiveAt(items, k, items[k].block);
        DoOther(f, x, min, items[k].block);
      }
    }
    forall b | !Live(D, b)
      ensures SameAt(g, s, b)
    {
      LiveAppend(items, x, b);
      DoOther(f, x, min, b);
    }
  }

  // A request opposite to a live item cancels it.
  lemma {:induction false} AheadCancel(f: Sets, s: Sets, items: seq<Item>, k: nat, x: Item, min: nat, free: set<nat>)
    requires Distinct(items) && Ahead(f, s, items, min) && AllReady(s, items, min, free) && Ready(f, x, min, free)
    requires k < |items| && LiveAt(items, k, x.block) && items[k].tmp == x.tmp && items[k].free != x.free
    ensures var D := items[k := items[k].(removed := true)];
            Ahead(Do(f, x, min), s, D, min) && AllReady(s, D, min, free)
  {
    var D, g := items[k := items[k].(removed := true)], Do(f, x, min);
    DoSame(f, Do(s, items[k], min), x, min, free);
    DoUndo(s, items[k], x, min, free);
    forall j | 0 <= j < |D| && !D[j].removed
      ensures SameAt(g, Do(s, D[j], min), D[j].block) && Ready(s, D[j], min, free)
    {
      assert LiveAt(items, j, D[j].block);
      DoOther(f, x, min, D[j].block);
    }
    forall b | !Live(D, b)
      ensures SameAt(g, s, b)
    {
      if b != x.block {
        DoOther(f, x, min, b);
        LiveRemoved(items, k, b);
      }
    }
  }

  // The head is applied.
  lemma {:induction false} AheadApply(f: Sets, s: Sets, items: seq<Item>, min: nat, free: set<nat>)
    requires items != [] && Distinct(items) && Ahead(f, s, items, min) && AllReady(s, items, min, free)
    ensures var s' := if items[0].removed then s else Do(s, items[0], min);
            Ahead(f, s', items[1..], min) && AllReady(s', items[1..], min, free)
  {
    var x, D := items[0], items[1..];
    var s' := if x.removed then s else Do(s, x, min);
    forall k | 0 <= k < |D| && !D[k].removed
      ensures SameAt(f, Do(s', D[k], min), D[k].block) && Ready(s', D[k], min, free)
    {
      assert LiveAt(items, k + 1, D[k].block);
      if !x.removed {
        assert LiveAt(items, 0, x.block);
        DoOther(s, x, min, D[k].block);
        DoSame(s', s, D[k], min, free);
      }
    }
    forall b | !Live(D, b)
      ensures SameAt(f, s', b)
    {
      LiveTail(items, b);
      if !x.removed {
        if b == x.block {
          assert LiveAt(items, 0, b);
        } else {
          DoOther(s, x, min, b);
        }
      }
    }
  }

  // ---- the requests of one transaction, applied at once ----

  // The sets as the requests leave them, all committed blocks freed so far, and the blocks of
  // the tree that will hold the new free set.
  datatype Ledger = Ledger(sets: Sets, gone: set<nat>, nodes: set<nat>)

  // What holds whenever no request is half done; min is how far `next` is up to date.
  ghost predicate Sound(l: Ledger, free: set<nat>, min: nat)
  {
    var s := l.sets;
    && s.alloc <= free && s.tmp <= free && s.alloc !! s.tmp && s.freed <= l.gone && l.gone !! free && 0 !in l.gone
    && 0 !in free
    && (forall b :: b < min ==> (b in s.next <==> (b in free && b !in s.alloc) || b in l.gone))
    && (forall b :: b >= min ==> (b in s.next <==> b in free) && (b in l.gone ==> b in s.freed))
    && (forall b :: b in l.nodes ==> b in s.alloc || (b !in free && b !in l.gone))
  }

  // What the requests add up to, without a queue or a cursor: the blocks held, the committed blocks
  // freed, and the blocks of the new free tree.
  datatype Held = Held(alloc: set<nat>, tmp: set<nat>, gone: set<nat>, nodes: set<nat>)

  function HeldOf(l: Ledger): Held { Held(l.sets.alloc, l.sets.tmp, l.gone, l.nodes) }

  // A block may be handed out, or given back by whoever holds it; node says the new free tree does.
  predicate Allowed(h: Held, x: Item, node: bool, free: set<nat>)
  {
    var b := x.block;
    b != 0 && if !x.free then b in free && b !in h.alloc && b !in h.tmp && !(x.tmp && node)
    else (node <==> b in h.nodes) && if x.tmp then b in h.tmp
      else b !in h.tmp && (b in h.alloc || (b !in free && b !in h.gone))
  }

  predicate Legal(l: Ledger, x: Item, node: bool, free: set<nat>)
  {
    Allowed(HeldOf(l), x, node, free)
  }

  function Book(l: Ledger, x: Item, node: bool, min: nat): Ledger
  {
    var b := x.block;
    Ledger(Do(l.sets, x, min),
           if x.free && !x.tmp && b !in l.sets.alloc then l.gone + {b} else l.gone,
           if !node then l.nodes else if x.free then l.nodes - {b} else l.nodes + {b})
  }

  // A request as it was taken.
  datatype Asked = Asked(item: Item, node: bool)

  function After(h: Held, x: Asked): Held
  {
    var b := x.item.block;
    var nodes := if !x.node then h.nodes else if x.item.free then h.nodes - {b} else h.nodes + {b};
    if !x.item.free then
      if x.item.tmp then h.(tmp := h.tmp + {b}, nodes := nodes) else h.(alloc := h.alloc + {b}, nodes := nodes)
    else if x.item.tmp then h.(tmp := h.tmp - {b}, nodes := nodes)
    else if b in h.alloc then h.(alloc := h.alloc - {b}, nodes := nodes)
    else h.(gone := h.gone + {b}, nodes := nodes)
  }

  function Total(h: Held, log: seq<Asked>): Held
  {
    if log == [] then h else After(Total(h, log[..|log| - 1]), log[|log| - 1])
  }

  ghost predicate Logged(l: Ledger, start: Held, log: seq<Asked>)
  {
    Total(start, log) == HeldOf(l)
  }

  lemma BookLogged(l: Ledger, start: Held, log: seq<Asked>, x: Item, node: bool, min: nat)
    requires Logged(l, start, log)
    ensures Logged(Book(l, x, node, min), start, log + [Asked(x, node)])
  {
    assert (log + [Asked(x, node)])[..|log|] == log;
  }

  // ---- what a set update asks for on its way ----

  // A block only for this transaction, a lasting one, or a node of the new free set's tree.
  datatype Kind = Temporary | Lasting | FreeNode

  datatype Request = AllocRequest(kind: Kind) | FreeRequest(block: nat, kind: Kind)

  // How a request is taken when h is held; pick is the block found for an allocation. A free that
  // the source's assertions rule out has no effect.
  function Taken(h: Held, r: Request, pick: nat, free: set<nat>, count: nat): seq<Asked>
  {
    match r
    case AllocRequest(k) => [Asked(Item(pick, k.Temporary?, false, false), k.FreeNode?)]
    case FreeRequest(b, k) =>
      var x := Item(b, k.Temporary?, true, false);
      if Allowed(h, x, k.FreeNode?, free) && b < count then [Asked(x, k.FreeNode?)] else []
  }

  // The log after the requests rs, one after the other.
  function Extended(start: Held, log: seq<Asked>, rs: seq<Request>, picks: seq<nat>, free: set<nat>,
                    count: nat): seq<Asked>
    requires |picks| == |rs|
  {
    if rs == [] then log
    else
      var n := |rs| - 1;
      var before := Extended(start, log, rs[..n], picks[..n], free, count);
      before + Taken(Total(start, before), rs[n], picks[n], free, count)
  }

  // Every request of rs was taken, in order, and nothing else was.
  ghost predicate Answered(start: Held, log: seq<Asked>, rs: seq<Request>, free: set<nat>, count: nat, log': seq<Asked>)
  {
    exists picks: seq<nat> :: |picks| == |rs| && log' == Extended(start, log, rs, picks, free, count)
  }

  lemma AnsweredNone(start: Held, log: seq<Asked>, free: set<nat>, count: nat)
    ensures Answered(start, log, [], free, count, log)
  {
    var picks: seq<nat> := [];
    assert log == Extended(start, log, [], picks, free, count);
  }

  lemma {:induction false} AnsweredOne(start: Held, log: seq<Asked>, rs: seq<Request>, r: Request, pick: nat,
                                       free: set<nat>, count: nat, log': seq<Asked>)
    requires Answered(start, log, rs, free, count, log')
    ensures Answered(start, log, rs + [r], free, count, log' + Taken(Total(start, log'), r, pick, free, count))
  {
    var picks: seq<nat> :| |picks| == |rs| && log' == Extended(start, log, rs, picks, free, count);
    hide Extended, Taken, Total;
    ExtendedLast(start, log, rs, r, picks, pick, free, count);
    assert |picks + [pick]| == |rs + [r]|;
  }

  lemma ExtendedNone(start: Held, log: seq<Asked>, rs: seq<Request>, picks: seq<nat>, free: set<nat>, count: nat)
    requires |picks| == |rs| && rs == []
    ensures Extended(start, log, rs, picks, free, count) == log
  {
  }

  lemma ExtendedLast(start: Held, log: seq<Asked>, rs: seq<Request>, r: Request, picks: seq<nat>, pick: nat,
                     free: set<nat>, count: nat)
    requires |picks| == |rs|
    ensures var before := Extended(start, log, rs, picks, free, count);
            Extended(start, log, rs + [r], picks + [pick], free, count)
            == before + Taken(Total(start, before), r, pick, free, count)
  {
    hide Taken, Total;
    assert (rs + [r])[..|rs|] == rs && (picks + [pick])[..|rs|] == picks;
  }

  lemma {:induction false} ExtendedJoin(start: Held, log: seq<Asked>, a: seq<Request>, p: seq<nat>, b: seq<Request>,
                                        q: seq<nat>, free: set<nat>, count: nat)
    requires |p| == |a| && |q| == |b|
    ensures Extended(start, Extended(start, log, a, p, free, count), b, q, free, count)
            == Extended(start, log, a + b, p + q, free, count)
    decreases |b|
  {
    hide Taken, Total, Extended;
    var mid := Extended(start, log, a, p, free, count);
    if b == [] {
      ExtendedNone(start, mid, b, q, free, count);
      assert a + b == a && p + q == p;
    } else {
      var n := |b| - 1;
      ExtendedJoin(start, log, a, p, b[..n], q[..n], free, count);
      ExtendedLast(start, mid, b[..n], b[n], q[..n], q[n], free, count);
      ExtendedLast(start, log, a + b[..n], b[n], p + q[..n], q[n], free, count);
      assert b[..n] + [b[n]] == b && q[..n] + [q[n]] == q;
      assert a + b[..n] + [b[n]] == a + b && p + q[..n] + [q[n]] == p + q;
    }
  }

  lemma {:induction false} AnsweredJoin(start: Held, log: seq<Asked>, a: seq<Request>, mid: seq<Asked>, b: seq<Request>,
                                        free: set<nat>, count: nat, log': seq<Asked>)
    requires Answered(start, log, a, free, count, mid) && Answered(start, mid, b, free, count, log')
    ensures Answered(start, log, a + b, free, count, log')
  {
    var p: seq<nat> :| |p| == |a| && mid == Extended(start, log, a, p, free, count);
    var q: seq<nat> :| |q| == |b| && log' == Extended(start, mid, b, q, free, count);
    hide Extended, Taken, Total;
    ExtendedJoin(start, log, a, p, b, q, free, count);
    assert |p + q| == |a + b|;
  }

  function At(script: seq<seq<Request>>, n: nat): seq<Request> { if n < |script| then script[n] else [] }

  // The requests made at the points from `from` up to `end` at which a set update can ask.
  function Asking(script: seq<seq<Request>>, from: nat, end: nat): seq<Request>
    requires from <= end
    decreases end
  {
    if from == end then [] else Asking(script, from, end - 1) + At(script, end - 1)
  }

  lemma {:induction false} AskingJoin(script: seq<seq<Request>>, a: nat, b: nat, c: nat)
    requires a <= b <= c
    ensures Asking(script, a, b) + Asking(script, b, c) == Asking(script, a, c)
    decreases c
  {
    if b < c {
      AskingJoin(script, a, b, c - 1);
    }
  }

  // Between turns `from` and `to` the log grew by exactly what was asked for.
  ghost predicate Grew(start: Held, script: seq<seq<Request>>, free: set<nat>, count: nat, from: nat, log: seq<Asked>,
                       to: nat, log': seq<Asked>)
  {
    from <= to && Answered(start, log, Asking(script, from, to), free, count, log')
  }

  lemma GrewNone(start: Held, script: seq<seq<Request>>, free: set<nat>, count: nat, from: nat, log: seq<Asked>)
    ensures Grew(start, script, free, count, from, log, from, log)
  {
    AnsweredNone(start, log, free, count);
  }

  lemma GrewJoin(start: Held, script: seq<seq<Request>>, free: set<nat>, count: nat, a: nat, log: seq<Asked>,
                 b: nat, mid: seq<Asked>, c: nat, log': seq<Asked>)
    requires Grew(start, script, free, count, a, log, b, mid) && Grew(start, script, free, count, b, mid, c, log')
    ensures Grew(start, script, free, count, a, log, c, log')
  {
    AskingJoin(script, a, b, c);
    AnsweredJoin(start, log, Asking(script, a, b), mid, Asking(script, b, c), free, count, log');
  }

  lemma GrewOne(start: Held, script: seq<seq<Request>>, free: set<nat>, count: nat, a: nat, log: seq<Asked>,
                log': seq<Asked>)
    requires Answered(start, log, At(script, a), free, count, log')
    ensures Grew(start, script, free, count, a, log, a + 1, log')
  {
    assert Asking(script, a, a + 1) == [] + At(script, a) == At(script, a);
  }

  lemma BookSound(l: Ledger, x: Item, node: bool, free: set<nat>, min: nat)
    requires Sound(l, free, min) && Legal(l, x, node, free)
    ensures Sound(Book(l, x, node, min), free, min) && Ready(l.sets, x, min, free)
  {
  }

  // The set being built is complete once the cursor has passed every allocated and freed block.
  lemma SoundDone(l: Ledger, free: set<nat>, min: nat)
    requires Sound(l, free, min) && (forall b :: b in l.sets.alloc || b in l.sets.freed ==> b < min)
    ensures l.sets.next == (free - l.sets.alloc) + l.gone && l.nodes !! l.sets.next
  {
  }

  // ---- requests while an item is being applied ----

  predicate Holds(l: Ledger, b: nat) { b in l.sets.alloc || b in l.sets.tmp }

  // The sets have caught up with block b as far as its allocation goes.
  predicate Reached(base: Sets, s: Sets, b: nat)
  {
    (b in base.alloc ==> b in s.alloc) && (b in base.tmp ==> b in s.tmp)
  }

  // A block whose allocation is on its way into a set is in none yet.
  ghost predicate Entering(base: Sets, s: Sets)
  {
    forall b :: !Reached(base, s, b) ==> b !in s.alloc && b !in s.tmp
  }

  // Held blocks whose allocation is not in the sets yet are queued as allocated.
  ghost predicate Guarded(l: Ledger, base: Sets, s: Sets, items: seq<Item>)
  {
    forall b :: !Reached(base, s, b) && Holds(l, b) ==> QueuedAlloc(items, b)
  }

  // Nothing the transaction knows keeps the search from returning block b.
  ghost predicate Returnable(s: Sets, items: seq<Item>, b: nat)
  {
    b !in s.alloc && b !in s.tmp && !QueuedAlloc(items, b)
  }

  // The search can return a block that is held.
  ghost predicate Exposed(l: Ledger, s: Sets, items: seq<Item>)
  {
    exists b :: Holds(l, b) && Returnable(s, items, b)
  }

  // A block the search can return is not held by the transaction.
  lemma {:induction false} PickFree(l: Ledger, base: Sets, s: Sets, items: seq<Item>, skip: nat, min: nat,
                                    free: set<nat>, b: nat)
    requires skip <= |items| && Ahead(l.sets, base, items[skip..], min) && AllReady(base, items[skip..], min, free)
    requires Guarded(l, base, s, items) && Returnable(s, items, b)
    ensures !Holds(l, b)
  {
    var tail := items[skip..];
    if Live(tail, b) {
      var k :| 0 <= k < |tail| && LiveAt(tail, k, b);
      assert LiveAt(items, skip + k, b);
    } else {
      assert Reached(base, s, b) || !Holds(l, b);
    }
  }

  // The sets already show x, the item being applied; a legal request for its block is opposite.
  ghost predicate Showing(l: Ledger, base: Sets, x: Item, free: set<nat>)
  {
    if !x.free then if x.tmp then x.block in base.tmp else x.block in base.alloc
    else x.block !in base.alloc && x.block !in base.tmp && (x.block in free || x.block in l.gone)
  }

  lemma ShowingItem(l: Ledger, base: Sets, x: Item, free: set<nat>, min: nat)
    requires Sound(l, free, min) && Ready(base, x, min, free) && SameAt(l.sets, Do(base, x, min), x.block)
    ensures Showing(l, Do(base, x, min), x, free) && Showing(l, l.sets, x, free)
  {
  }

  lemma {:induction false} Opposite(l: Ledger, base: Sets, items: seq<Item>, skip: nat, k: nat, x: Item, node: bool,
                                    free: set<nat>, min: nat)
    requires skip <= 1 && skip <= |items| && Distinct(items) && Sound(l, free, min) && Legal(l, x, node, free)
    requires Ahead(l.sets, base, items[skip..], min) && AllReady(base, items[skip..], min, free)
    requires skip == 1 && !items[0].removed ==> Showing(l, base, items[0], free)
    requires k < |items| && LiveAt(items, k, x.block)
    ensures items[k].free != x.free
  {
    var tail := items[skip..];
    if k >= skip {
      assert tail[k - skip] == items[k];
      ShowingItem(l, base, items[k], free, min);
    } else {
      TailDead(items);
    }
  }

  // What a request does to the queue, seen from the items not yet applied.
  lemma {:induction false} Queued(l: Ledger, base: Sets, items: seq<Item>, skip: nat, k: int, updating: bool, x: Item,
                                  node: bool, free: set<nat>, min: nat)
    requires skip <= 1 && skip <= |items| && Distinct(items) && Sound(l, free, min) && Legal(l, x, node, free)
             && !x.removed
    requires Ahead(l.sets, base, items[skip..], min) && AllReady(base, items[skip..], min, free)
             && (updating <==> skip == 1)
    requires -1 <= k < |items|
             && if k < 0 then !Live(items, x.block)
                else LiveAt(items, k, x.block) && items[k].free != x.free && items[k].tmp == x.tmp
    ensures var D := Requested(items, k, updating, x);
            && skip <= |D| && Ahead(Do(l.sets, x, min), base, D[skip..], min) && AllReady(base, D[skip..], min, free)
            && (skip == 1 ==> D[0] == items[0] || (k == 0 && D[0] == items[0].(removed := true)))
  {
    var tail, D := items[skip..], Requested(items, k, updating, x);
    BookSound(l, x, node, free, min);
    if skip == 1 {
      LiveTail(items, x.block);
      DistinctTail(items);
    }
    if k < 0 {
      AheadAdd(l.sets, base, tail, x, min, free);
      assert D[skip..] == tail + [x];
    } else if k > 0 || !updating {
      AheadCancel(l.sets, base, tail, k - skip, x, min, free);
      assert D[skip..] == tail[k - skip := tail[k - skip].(removed := true)];
    } else {
      TailDead(items);
      AheadAdd(l.sets, base, tail, x, min, free);
      assert D[skip..] == tail + [x];
    }
  }

  // A free keeps the guard, and so does an allocation of a block the sets have caught up with.
  lemma {:induction false} StillGuarded(l: Ledger, base: Sets, s: Sets, items: seq<Item>, k: int, updating: bool,
                                        x: Item, node: bool, free: set<nat>, min: nat, l': Ledger)
    requires Guarded(l, base, s, items) && (x.free || Reached(base, s, x.block))
    requires -1 <= k < |items| && (k >= 0 ==> items[k].block == x.block)
    requires Sound(l, free, min) && Legal(l, x, node, free) && l' == Book(l, x, node, min)
    ensures Guarded(l', base, s, Requested(items, k, updating, x))
  {
    var D := Requested(items, k, updating, x);
    forall b | !Reached(base, s, b) && Holds(l', b)
      ensures QueuedAlloc(D, b)
    {
      assert b != x.block && Holds(l, b);
      var j :| 0 <= j < |items| && LiveAt(items, j, b) && !items[j].free;
      assert LiveAt(D, j, b) && !D[j].free;
    }
  }

  lemma BookOthers(l: Ledger, x: Item, node: bool, min: nat, others: set<nat>)
    requires (l.sets.alloc + l.sets.tmp) !! others && (!x.free ==> x.block !in others)
    ensures var m := Book(l, x, node, min);
            (m.sets.alloc + m.sets.tmp) !! others && l.gone <= m.gone <= l.gone + {x.block}
              && m.sets == Do(l.sets, x, min)
  {
  }

  // Before the head is applied.
  lemma {:induction false} HeadReady(l: Ledger, s: Sets, items: seq<Item>, min: nat, free: set<nat>)
    requires items != [] && !items[0].removed && Sound(l, free, min) && Ahead(l.sets, s, items, min)
             && AllReady(s, items, min, free)
    ensures var base := Do(s, items[0], min);
            && Ready(s, items[0], min, free) && Showing(l, base, items[0], free)
            && Guarded(l, base, s, items) && Entering(base, s)
  {
    ShowingItem(l, s, items[0], free, min);
    forall b | !Reached(Do(s, items[0], min), s, b)
      ensures QueuedAlloc(items, b)
    {
      assert LiveAt(items, 0, b) && !items[0].free;
    }
  }

  lemma GuardedSelf(l: Ledger, s: Sets, items: seq<Item>)
    ensures Guarded(l, s, s, items) && Entering(s, s)
  {
  }

  // With nothing queued the sets are what the requests make them.
  lemma {:induction false} AheadNone(f: Sets, s: Sets, items: seq<Item>, min: nat)
    requires Ahead(f, s, items[0..], min) && items == []
    ensures f == s
  {
    forall b: nat
      ensures (b in f.tmp <==> b in s.tmp) && (b in f.alloc <==> b in s.alloc)
      ensures (b in f.freed <==> b in s.freed) && (b in f.next <==> b in s.next)
    {
      assert !Live(items[0..], b) && SameAt(f, s, b);
    }
    assert f.tmp == s.tmp && f.alloc == s.alloc && f.freed == s.freed && f.next == s.next;
  }

  // ---- moving the cursor ----

  function Stretch(a: nat, e: nat): (s: set<nat>)
    ensures forall b: nat :: b in s <==> a <= b < e
    decreases e - a
  {
    if a >= e then {} else {a} + Stretch(a + 1, e)
  }

  // The cursor passes a stretch of allocated blocks: they leave the set being built.
  lemma CursorDelete(l: Ledger, free: set<nat>, min: nat, a: nat, e: nat)
    requires Sound(l, free, min) && min <= a < e && (forall b :: a <= b < e ==> b in l.sets.alloc)
    requires forall b :: min <= b < a ==> b !in l.sets.alloc && b !in l.sets.freed
    ensures Stretch(a, e) <= l.sets.next && Sound(l.(sets := l.sets.(next := l.sets.next - Stretch(a, e))), free, e)
  {
  }

  // The cursor passes a stretch of freed blocks: they join the set being built.
  lemma CursorAdd(l: Ledger, free: set<nat>, min: nat, a: nat, e: nat)
    requires Sound(l, free, min) && min <= a < e && (forall b :: a <= b < e ==> b in l.sets.freed)
    requires forall b :: min <= b < a ==> b !in l.sets.alloc && b !in l.sets.freed
    ensures Stretch(a, e) !! l.sets.next && Sound(l.(sets := l.sets.(next := l.sets.next + Stretch(a, e))), free, e)
  {
  }

  lemma CursorStart(l: Ledger, free: set<nat>)
    requires Sound(l, free, 0)
    ensures Sound(l, free, 1)
  {
  }

  lemma AheadIdle(s: Sets, items: seq<Item>, min: nat, free: set<nat>)
    requires forall k :: 0 <= k < |items| ==> items[k].removed
    ensures Ahead(s, s, items[0..], min) && AllReady(s, items[0..], min, free)
  {
  }

  lemma GuardedNext(l: Ledger, base: Sets, s: Sets, items: seq<Item>)
    requires base.alloc == s.alloc && base.tmp == s.tmp
    ensures Guarded(l, base, s, items) && Entering(base, s)
  {
  }

  lemma SoundParts(l: Ledger, free: set<nat>, min: nat)
    requires Sound(l, free, min)
    ensures l.sets.alloc <= free && l.sets.freed <= l.gone
  {
  }

  lemma StillShowing(l: Ledger, l': Ledger, base: Sets, h: Item, free: set<nat>)
    requires l.gone <= l'.gone && (!h.removed ==> Showing(l, base, h, free))
    ensures !h.removed ==> Showing(l', base, h, free)
  {
  }

  // Everything a request keeps.
  lemma {:induction false} Booked(l: Ledger, base: Sets, s: Sets, items: seq<Item>, skip: nat, k: int, updating: bool,
                                  x: Item, node: bool, free: set<nat>, min: nat, D: seq<Item>, l': Ledger)
    requires skip <= 1 && skip <= |items| && Distinct(items) && Sound(l, free, min) && Legal(l, x, node, free)
             && !x.removed
    requires Ahead(l.sets, base, items[skip..], min) && AllReady(base, items[skip..], min, free)
             && (updating <==> skip == 1)
    requires skip == 1 && !items[0].removed ==> Showing(l, base, items[0], free)
    requires -1 <= k < |items|
    requires if k < 0 then !Live(items, x.block)
             else LiveAt(items, k, x.block) && items[k].free != x.free && items[k].tmp == x.tmp
    requires D == Requested(items, k, updating, x) && l' == Book(l, x, node, min)
    ensures Sound(l', free, min) && skip <= |D| && D != []
    ensures Ahead(l'.sets, base, D[skip..], min) && AllReady(base, D[skip..], min, free)
    ensures skip == 1 && !D[0].removed ==> Showing(l', base, D[0], free)
    ensures Guarded(l, base, s, items) && (x.free || Reached(base, s, x.block)) ==> Guarded(l', base, s, D)
  {
    hide Distinct, Sound, Ahead, AllReady, Guarded, Legal, Showing, Live, Reached, Do;
    Queued(l, base, items, skip, k, updating, x, node, free, min);
    if Guarded(l, base, s, items) && (x.free || Reached(base, s, x.block)) {
      StillGuarded(l, base, s, items, k, updating, x, node, free, min, l');
    }
    BookSound(l, x, node, free, min);
    if skip == 1 {
      StillShowing(l, l', base, items[0], free);
    }
  }

  // ---- handing out a block again while its first allocation is on its way ----

  // If block x.block was given back before its allocation reached the sets, a request that hands it
  // out again cancels the free in the queue, and no item for the block is left.
  lemma {:induction false} AgainUnqueued(l: Ledger, base: Sets, s: Sets, items: seq<Item>, skip: nat, k: int,
                                         updating: bool,
                                         x: Item, node: bool, free: set<nat>, min: nat)
    requires skip <= 1 && skip <= |items| && Distinct(items) && Legal(l, x, node, free) && !x.free && !x.removed
    requires Ahead(l.sets, base, items[skip..], min) && (updating <==> skip == 1)
    requires skip == 1 && !items[0].removed ==> Showing(l, base, items[0], free)
    requires -1 <= k < |items|
    requires if k < 0 then !Live(items, x.block) else LiveAt(items, k, x.block) && items[k].free != x.free
    requires !Reached(base, s, x.block)
    ensures !QueuedAlloc(Requested(items, k, updating, x), x.block)
  {
    var tail, b, D := items[skip..], x.block, Requested(items, k, updating, x);
    if k < 0 {
      forall j | 0 <= j < |tail|
        ensures !LiveAt(tail, j, b)
      {
        assert !LiveAt(items, skip + j, b);
      }
      assert SameAt(l.sets, base, b);
    } else {
      forall j | 0 <= j < |D|
        ensures !LiveAt(D, j, b)
      {
        assert j < |items| && j != k && LiveAt(items, j, b) ==> j == k;
      }
    }
  }

  // After an allocation of a block that the search can return, the search can return a held block
  // if and only if the allocated block had been given back before its first allocation arrived.
  lemma {:induction false} ExposedExactly(l: Ledger, base: Sets, s: Sets, items: seq<Item>, skip: nat, k: int,
                                          updating: bool,
                                          x: Item, node: bool, free: set<nat>, min: nat, D: seq<Item>, l': Ledger)
    requires skip <= 1 && skip <= |items| && Distinct(items) && Sound(l, free, min) && Legal(l, x, node, free)
             && !x.removed
    requires Ahead(l.sets, base, items[skip..], min) && AllReady(base, items[skip..], min, free)
             && (updating <==> skip == 1)
    requires skip == 1 && !items[0].removed ==> Showing(l, base, items[0], free)
    requires -1 <= k < |items|
    requires if k < 0 then !Live(items, x.block)
             else LiveAt(items, k, x.block) && items[k].free != x.free && items[k].tmp == x.tmp
    requires D == Requested(items, k, updating, x) && l' == Book(l, x, node, min)
    requires !x.free && Returnable(s, items, x.block) && Guarded(l, base, s, items) && Entering(base, s)
    ensures Exposed(l', s, D) <==> !Reached(base, s, x.block)
  {
    if Reached(base, s, x.block) {
      Booked(l, base, s, items, skip, k, updating, x, node, free, min, D, l');
      forall b | Returnable(s, D, b)
        ensures !Holds(l', b)
      {
        PickFree(l', base, s, D, skip, min, free, b);
      }
    } else {
      AgainUnqueued(l, base, s, items, skip, k, updating, x, node, free, min);
      assert Holds(l', x.block) && Returnable(s, D, x.block);
    }
  }

  // Such a state: block 5 is being added to the allocated set, is given back and handed out again
  // before it is in the set. It is held, and the search may return it a third time.
  lemma {:induction false} HandedOutTwice()
    ensures var s, x, free := Sets({}, {}, {}, {5, 6}), Item(5, false, false, false), {5, 6};
            var y, base, l0 := x.(free := true), Do(s, x, 0), Ledger(Do(s, x, 0), {}, {});
            var l1 := Book(l0, y, false, 0);
            var l2 := Book(l1, x, false, 0);
            var q1 := Requested([x], 0, true, y);
            && Sound(l0, free, 0) && Ready(s, x, 0, free) && Guarded(l0, base, s, [x])
            && Ahead(l0.sets, base, [x][1..], 0)
            && Legal(l0, y, false, free) && Legal(l1, x, false, free)
            && |q1| == 2 && LiveAt(q1, 1, 5) && Returnable(s, q1, 5)
            && Exposed(l2, s, Requested(q1, 1, true, x))
  {
    var s, x, free := Sets({}, {}, {}, {5, 6}), Item(5, false, false, false), {5, 6};
    var y, base, l0 := x.(free := true), Do(s, x, 0), Ledger(Do(s, x, 0), {}, {});
    var l1, q1 := Book(l0, y, false, 0), Requested([x], 0, true, y);
    assert LiveAt([x], 0, 5) && QueuedAlloc([x], 5);
    assert q1 == [x.(removed := true), y];
    var l2, q2 := Book(l1, x, false, 0), Requested(q1, 1, true, x);
    assert q2 == [x.(removed := true), y.(removed := true)];
    assert Holds(l2, 5) && Returnable(s, q2, 5);
  }
}
