// The re-entrant allocator of block_allocator.c. Updating a block set may itself allocate and
// free blocks; such requests are queued and applied later.
module Allocators {
  import opened AllocQueue
  import opened AllocModel
  import opened RangeModel

  // The ring is full, or an item for the block is of the other kind.
  ghost predicate Refused(items: seq<Item>, length: nat, x: Item)
  {
    |items| + 1 >= length || exists k :: 0 <= k < |items| && LiveAt(items, k, x.block) && items[k].tmp != x.tmp
  }

  lemma AddRefused(items: seq<Item>, items': seq<Item>, k: int, length: nat, x: Item)
    requires |items'| == |items| && -1 <= k < |items| && (k >= 0 ==> LiveAt(items, k, x.block))
    requires |items| + 1 >= length || (k >= 0 && items[k].tmp != x.tmp && items' == items)
    ensures Refused(items', length, x)
  {
  }

  // The new free set: what was free and is not held, and all that was freed. Its own tree is not in it.
  ghost predicate Merged(free: set<nat>, h: Held, s: Sets)
  {
    s.alloc == h.alloc && s.tmp == h.tmp && s.next == (free - h.alloc) + h.gone && h.nodes !! s.next
  }

  // The least block from the hint on, or the least of all if there is none; 0 if there are none.
  ghost predicate Chosen(blocks: iset<nat>, hint: nat, b: nat)
  {
    if blocks == iset{} then b == 0
    else b in blocks && forall x :: x in blocks ==> if b >= hint then x < hint || b <= x else x < hint && b <= x
  }

  lemma QueuedOrNot(items: seq<Item>, k: int, b: nat)
    requires Distinct(items) && -1 <= k < |items| && if k < 0 then !Live(items, b) else LiveAt(items, k, b)
    ensures QueuedAlloc(items, b) <==> k >= 0 && !items[k].free
  {
  }

  // block_set_add_block and block_set_remove_block, with what the source asserts
  function WithBlock(s: set<nat>, b: nat): set<nat>
    requires b !in s
  {
    s + {b}
  }

  function WithoutBlock(s: set<nat>, b: nat): set<nat>
    requires b in s
  {
    s - {b}
  }

  class Allocator {
    const q: Queue
    const free: set<nat>    // the committed free set
    const others: set<nat>  // blocks allocated by other transactions
    const count: nat        // blocks on the device
    var s: Sets             // the transaction's sets
    var min: nat            // min_free_block
    var aborted: bool       // an assertion of the source failed, or there was no space

    var ledger: Ledger      // the sets as all requests so far leave them
    var base: Sets          // the sets with the item being applied in place
    var skip: nat           // 1 while the head is being applied, else 0
    ghost const start: Held // the sets the transaction started from
    ghost var log: seq<Asked> // all requests so far
    const script: seq<seq<Request>> // what set updates ask for, at each point at which they can
    var turn: nat           // the number of the next such point
    ghost var again: bool   // a block was handed out while an earlier allocation of it was on its way
    var lastTmp: nat        // last_tmp_free_block
    var lastFree: nat       // last_free_block
    var refused: Item       // the last request
    var passes: nat         // passes of the current queue run
    const limit: nat        // loop_limit

    ghost predicate Core()
      reads this, q, q.entry
    {
      && q.Valid() && skip <= 1 && skip <= |q.Items()| && Sound(ledger, free, min) && 0 !in free
      && (ledger.sets.alloc + ledger.sets.tmp) !! others && (forall b :: b in free || b in ledger.gone ==> b < count)
      && Ahead(ledger.sets, base, q.Items()[skip..], min) && AllReady(base, q.Items()[skip..], min, free)
      && Entering(base, s) && (!again ==> Guarded(ledger, base, s, q.Items())) && Logged(ledger, start, log)
      && (skip == 1 ==> q.updating && (!q.Items()[0].removed ==> Showing(ledger, base, q.Items()[0], free)))
    }

    // Requests may be queued: no item is half taken off the queue.
    ghost predicate Open()
      reads this, q, q.entry
    {
      Core() && (q.updating ==> skip == 1)
    }

    // Why the transaction cannot go on: the source asserts that the ring takes a request and that
    // the queue is drained in time, and fails the transaction if there is no free block. Or the
    // search has returned a block that is held, which needs a block handed out again too early.
    ghost predicate Stuck()
      reads this, q, q.entry
    {
      && q.Valid()
      && (|| Refused(q.Items(), q.entry.Length, refused)
          || Candidates() == iset{}
          || (passes == limit && !q.IsEmpty())
          || (again && refused.block in Candidates() && Holds(ledger, refused.block)))
    }

    // The blocks that find_free_block chooses from.
    ghost function Candidates(): iset<nat>
      reads this, q, q.entry
      requires q.Valid()
    {
      iset x: nat | x in free && x !in others && Returnable(s, q.Items(), x)
    }

    // No set update is under way.
    ghost predicate Steady()
      reads this, q, q.entry
    {
      Open() && skip == 0 && !q.updating && base == s
    }

    constructor (n: nat, limit: nat, count: nat, free: set<nat>, others: set<nat>, freed: set<nat>, nodes: set<nat>,
                 script: seq<seq<Request>>)
      requires n >= 2 && (forall b :: b in free || b in freed ==> b < count) && 0 !in free + freed && freed !! free
               && nodes !! free && nodes !! freed
      ensures Steady() && fresh(q) && fresh(q.entry) && q.IsEmpty() && !aborted && this.free == free
              && this.others == others && this.count == count && this.limit == limit
      ensures s == Sets({}, {}, freed, free) && ledger == Ledger(s, freed, nodes) && min == 0
              && start == Held({}, {}, freed, nodes) && log == [] && !again
              && this.script == script
    {
      q := new Queue(n);
      this.free, this.others, this.count, this.limit := free, others, count, limit;
      start, log, refused, passes := Held({}, {}, freed, nodes), [], Item(0, false, false, true), 0;
      again, lastTmp, lastFree, turn := false, 0, 0, 0;
      this.script := script;
      s, base := Sets({}, {}, freed, free), Sets({}, {}, freed, free);
      min, skip, aborted := 0, 0, false;
      ledger := Ledger(Sets({}, {}, freed, free), freed, nodes);
    }

    // A request is booked at once and queued. From a state in which no held block can be returned,
    // handing out a block leads to one in which a held block can be returned exactly if an earlier
    // allocation of that block is still on its way into a set.
    method Enqueue(x: Item, node: bool)
      requires Open() && !aborted && !x.removed && Legal(ledger, x, node, free) && (!x.free ==> x.block !in others)
               && x.block < count
      modifies this`ledger, this`log, this`again, this`aborted, this`refused, q, q.entry
      ensures if aborted then Stuck()
              else
                && Open() && ledger == Book(old(ledger), x, node, min)
                && log == old(log) + [Asked(x, node)] && !q.IsEmpty()
      ensures again == (old(again) || (!aborted && !x.free && !Reached(base, s, x.block)))
      ensures !aborted && !x.free && !old(again) && x.block in old(Candidates()) ==>
                (Exposed(ledger, s, q.Items()) <==> !Reached(base, s, x.block))
      ensures q.updating == old(q.updating) && old(log) <= log && old(ledger.gone) <= ledger.gone
    {
      hide Distinct, Sound, Ahead, AllReady, Guarded, Legal, Showing, Live, Reached, Book, Requested, Queue.Items,
        Refused, Logged,
        QueuedAlloc, Entering, Exposed, Returnable, Holds;
      ghost var items := q.Items();
      var l := Book(ledger, x, node, min);
      ghost var mine := x.block in Candidates();
      refused := x;
      forall k | 0 <= k < |items| && LiveAt(items, k, x.block)
        ensures items[k].free != x.free
      {
        Opposite(ledger, base, items, skip, k, x, node, free, min);
      }
      var ok, k := q.Add(x.block, x.tmp, x.free);
      if !ok {
        aborted := true;
        AddRefused(items, q.Items(), k, q.entry.Length, x);
        return;
      }
      BookOthers(ledger, x, node, min, others);
      BookLogged(ledger, start, log, x, node, min);
      log := log + [Asked(x, node)];
      Booked(ledger, base, s, items, skip, k, q.updating, x, node, free, min, q.Items(), l);
      if !x.free && !again && mine {
        ExposedExactly(ledger, base, s, items, skip, k, q.updating, x, node, free, min, q.Items(), l);
      }
      again := again || (!x.free && !Reached(base, s, x.block));
      ledger := l;
    }

    // find_free_block: the least block from `from` on that it can choose, 0 if there is none.
    method Pick(from: nat) returns (b: nat)
      requires q.Valid() && 0 !in free && forall x :: x in free ==> x < count
      ensures b == 0 ==> forall x :: x in Candidates() ==> x < from
      ensures b != 0 ==> b in Candidates() && from <= b && forall x :: x in Candidates() && from <= x ==> b <= x
    {
      hide QueuedAlloc, Distinct;
      b := from;
      while b < count
        invariant forall x :: x in Candidates() && from <= x ==> b <= x
      {
        if b in free && b !in others && b !in s.alloc && b !in s.tmp {
          var index, k := q.Find(b);
          QueuedOrNot(q.Items(), k, b);
          assert index >= 0 ==> q.Items()[k] == q.entry[index];
          if index < 0 || q.entry[index].free {
            return;
          }
        }
        b := b + 1;
      }
      b := 0;
    }

    // The search of block_allocate_etc, which starts at a hint and then from the beginning.
    method Choose(tmp: bool) returns (b: nat)
      requires q.Valid() && 0 !in free && forall x :: x in free ==> x < count
      ensures Chosen(Candidates(), if tmp then lastTmp else lastFree, b)
    {
      b := Pick(if tmp then lastTmp else lastFree);
      if b == 0 {
        b := Pick(0);
      }
    }

    // What a set update may do before and after the set changes: any finite number of requests.
    // Each of them is taken.
    method Nested()
      requires Open() && !q.IsEmpty() && !aborted
      modifies this`ledger, this`log, this`again, this`aborted, this`refused, this`turn, q, q.entry
      ensures if aborted then Stuck() else (Open() && !q.IsEmpty())
      ensures !aborted ==> turn == old(turn) + 1 && Grown(old(turn), old(log))
      ensures q.updating == old(q.updating) && old(log) <= log && old(ledger.gone) <= ledger.gone
    {
      hide Sound, Ahead, AllReady, Guarded, Showing, Logged, Entering, Answered, Taken, Grew, Refused, QueuedAlloc,
        Queue.Items;
      var requests := At(script, turn);
      turn := turn + 1;
      AnsweredNone(start, log, free, count);
      assert requests[..0] == [];
      for i := 0 to |requests|
        invariant turn == old(turn) + 1 && Open() && !q.IsEmpty() && !aborted
        invariant Answered(start, old(log), requests[..i], free, count, log)
        invariant q.updating == old(q.updating) && old(log) <= log && old(ledger.gone) <= ledger.gone
      {
        ghost var before := log;
        ghost var pick := HandleRequest(requests[i]);
        if aborted {
          return;
        }
        AnsweredOne(start, old(log), requests[..i], requests[i], pick, free, count, before);
        assert requests[..i + 1] == requests[..i] + [requests[i]];
      }
      assert requests[..|requests|] == requests;
      GrewOne(start, script, free, count, old(turn), old(log), log);
    }

    // The log has grown by what was asked for since then, and by nothing else.
    ghost predicate Grown(from: nat, before: seq<Asked>)
      reads this
    {
      Grew(start, script, free, count, from, before, turn, log)
    }

    // One request: a free is queued if the source's assertions hold for it, an allocation gets the
    // block that the search finds.
    method HandleRequest(r: Request) returns (ghost pick: nat)
      requires Open() && !q.IsEmpty() && !aborted
      modifies this`ledger, this`log, this`again, this`aborted, this`refused, q, q.entry
      ensures if aborted then Stuck() else (Open() && !q.IsEmpty())
      ensures !aborted ==> log == old(log) + Taken(Total(start, old(log)), r, pick, free, count)
      ensures !aborted && r.AllocRequest? ==>
                && pick in free && pick !in others && !Holds(old(ledger), pick)
                && Chosen(old(Candidates()), if r.kind.Temporary? then lastTmp else lastFree, pick)
      ensures q.updating == old(q.updating) && old(log) <= log && old(ledger.gone) <= ledger.gone
    {
      hide Sound, Ahead, AllReady, Guarded, Showing;
      match r
      case AllocRequest(kind) =>
        var b := Choose(kind.Temporary?);
        pick := b;
        if b == 0 {
          aborted := true;
        } else if Holds(ledger, b) {
          refused, aborted := Item(b, kind.Temporary?, false, false), true;
          HeldAgain();
        } else {
          Enqueue(Item(b, kind.Temporary?, false, false), kind.FreeNode?);
        }
      case FreeRequest(b, kind) =>
        pick := 0;
        if Legal(ledger, Item(b, kind.Temporary?, true, false), kind.FreeNode?, free) && b < count {
          Enqueue(Item(b, kind.Temporary?, true, false), kind.FreeNode?);
        }
    }

    lemma HeldAgain()
      requires Core() && refused.block in Candidates() && Holds(ledger, refused.block)
      ensures again
    {
      if !again {
        PickFree(ledger, base, s, q.Items(), skip, min, free, refused.block);
      }
    }

    // One block set is updated; requests may come before and after the change.
    method Change(to: Sets)
      requires Open() && !q.IsEmpty() && !aborted && skip == 1 && Entering(base, to)
               && (forall b :: Reached(base, s, b) ==> Reached(base, to, b))
      modifies this`s, this`ledger, this`log, this`again, this`aborted, this`refused, this`turn, q, q.entry
      ensures if aborted then Stuck() else s == to && Open() && !q.IsEmpty()
      ensures !aborted ==> turn == old(turn) + 2 && Grown(old(turn), old(log))
      ensures q.updating == old(q.updating) && old(log) <= log && old(ledger.gone) <= ledger.gone
    {
      hide Sound, Ahead, AllReady, Showing, Reached, Grew, Logged, Entering, Refused, QueuedAlloc, Queue.Items;
      Nested();
      if !aborted {
        s := to;
        ghost var mid, at := log, turn;
        Nested();
        if !aborted {
          GrewJoin(start, script, free, count, old(turn), old(log), at, mid, turn, log);
        }
      }
    }

    // block_allocator_add_allocated
    method AddAllocated(b: nat, tmp: bool)
      requires Open() && !q.IsEmpty() && !aborted && skip == 1 && base == Do(s, Item(b, tmp, false, false), min)
               && Ready(s, Item(b, tmp, false, false), min, free)
      modifies this`lastTmp, this`lastFree, this`s, this`ledger, this`log, this`again, this`aborted, this`refused,
               this`turn, q,
               q.entry
      ensures if aborted then Stuck() else (Open() && !q.IsEmpty() && s == base)
      ensures !aborted ==> Grown(old(turn), old(log))
      ensures q.updating == old(q.updating) && old(log) <= log && old(ledger.gone) <= ledger.gone
      ensures !aborted ==> lastTmp == (if tmp then b + 1 else old(lastTmp))
                           && lastFree == if !tmp && b < min then b + 1 else old(lastFree)
    {
      hide Sound, Ahead, AllReady, Showing, Guarded, Refused, QueuedAlloc, Logged, Queue.Items, Grew;
      if tmp {
        Change(s.(tmp := WithBlock(s.tmp, b)));
        if !aborted {
          lastTmp := b + 1;
        }
      } else {
        Change(s.(alloc := WithBlock(s.alloc, b)));
        if !aborted && b < min {
          ghost var mid, at := log, turn;
          Change(s.(next := WithoutBlock(s.next, b)));
          if !aborted {
            GrewJoin(start, script, free, count, old(turn), old(log), at, mid, turn, log);
            lastFree := b + 1;
          }
        }
      }
    }

    // block_allocator_add_free
    method AddFree(b: nat, tmp: bool)
      requires Open() && !q.IsEmpty() && !aborted && skip == 1 && base == Do(s, Item(b, tmp, true, false), min)
               && Ready(s, Item(b, tmp, true, false), min, free)
      modifies this`s, this`ledger, this`log, this`again, this`aborted, this`refused, this`turn, q, q.entry
      ensures if aborted then Stuck() else (Open() && !q.IsEmpty() && s == base)
      ensures !aborted ==> Grown(old(turn), old(log))
      ensures q.updating == old(q.updating) && old(log) <= log && old(ledger.gone) <= ledger.gone
    {
      hide Sound, Ahead, AllReady, Showing, Guarded, Refused, QueuedAlloc, Logged, Queue.Items, Grew;
      if tmp {
        assert b !in s.alloc && b !in s.freed;
        Change(s.(tmp := WithoutBlock(s.tmp, b)));
        return;
      }
      assert b !in s.tmp;
      if b in s.alloc {
        Change(s.(alloc := WithoutBlock(s.alloc, b)));
        if !aborted && b < min {
          ghost var mid, at := log, turn;
          Change(s.(next := WithBlock(s.next, b)));
          if !aborted {
            GrewJoin(start, script, free, count, old(turn), old(log), at, mid, turn, log);
          }
        }
      } else if b < min {
        Change(s.(next := WithBlock(s.next, b)));
      } else {
        Change(s.(freed := WithBlock(s.freed, b)));
      }
    }

    // One pass of the loop in block_allocator_process_queue.
    method ApplyHead()
      requires Core() && q.updating && skip == 0 && base == s && !q.IsEmpty() && !aborted
      modifies this`lastTmp, this`lastFree, this`s, this`base, this`skip, this`ledger, this`log, this`again,
               this`aborted, this`refused, this`turn, q, q.entry
      ensures if aborted then Stuck() else (Core() && skip == 0 && base == s)
      ensures !aborted ==> Grown(old(turn), old(log))
      ensures q.updating && old(log) <= log && old(ledger.gone) <= ledger.gone
      ensures !aborted ==>
                var x := old(q.PeekHead());
                && lastTmp == (if !x.removed && !x.free && x.tmp then x.block + 1 else old(lastTmp))
                && lastFree == if !x.removed && !x.free && !x.tmp && x.block < min then x.block + 1 else old(lastFree)
    {
      hide Sound, Ahead, AllReady, Showing, Guarded, Distinct, Ready, Do, Queue.Items, Grew, Logged;
      GrewNone(start, script, free, count, turn, log);
      var x := q.PeekHead();
      ghost var items := q.Items();
      AheadApply(ledger.sets, base, items, min, free);
      if !x.removed {
        HeadReady(ledger, base, items, min, free);
        skip, base := 1, Do(s, x, min);
        assert q.Items()[0..] == items;
        if x.free {
          AddFree(x.block, x.tmp);
        } else {
          AddAllocated(x.block, x.tmp);
        }
        if aborted {
          return;
        }
      }
      ghost var rest := q.Items()[1..];
      q.RemoveHead();
      skip := 0;
      base := s;
      assert q.Items()[0..] == rest;
      GuardedSelf(ledger, s, q.Items());
    }

    // block_allocator_process_queue
    method ProcessQueue()
      requires Steady() && !aborted
      modifies this`lastTmp, this`lastFree, this`s, this`base, this`skip, this`ledger, this`log, this`again,
               this`aborted, this`refused, this`turn, this`passes, q, q.entry
      ensures if aborted then Stuck() else (Steady() && q.IsEmpty() && s == ledger.sets)
      ensures !aborted ==> Grown(old(turn), old(log))
      ensures old(log) <= log && old(ledger.gone) <= ledger.gone
    {
      hide Sound, Ahead, AllReady, Showing, Guarded, Distinct, Refused, QueuedAlloc, Logged, Grew, Entering;
      GrewNone(start, script, free, count, turn, log);
      ghost var items := q.Items();
      q.updating := true;
      assert q.Items() == items;
      passes := 0;
      while !aborted && !q.IsEmpty()
        invariant q.updating && passes <= limit && if aborted then Stuck() else Core() && skip == 0 && base == s
        invariant old(log) <= log && old(ledger.gone) <= ledger.gone && (!aborted ==> Grown(old(turn), old(log)))
        decreases limit - passes
      {
        if passes == limit {
          aborted := true;
          return;
        }
        passes := passes + 1;
        ghost var mid, at := log, turn;
        ApplyHead();
        if !aborted {
          GrewJoin(start, script, free, count, old(turn), old(log), at, mid, turn, log);
        }
      }
      items := q.Items();
      q.updating := false;
      assert q.Items() == items;
      if !aborted {
        AheadNone(ledger.sets, s, q.Items(), min);
      }
    }

    // block_allocate_etc
    method Allocate(tmp: bool) returns (b: nat)
      requires Steady() && !aborted
      modifies this`lastTmp, this`lastFree, this`s, this`base, this`skip, this`ledger, this`log, this`again,
               this`aborted, this`refused, this`turn, this`passes, q, q.entry
      ensures if aborted then Stuck()
              else Steady() && !q.IsEmpty() == !old(q.IsEmpty())
      ensures !aborted ==> Grown(old(turn), old(log) + [Asked(Item(b, tmp, false, false), false)])
      ensures !aborted ==> b in free && b !in others && !Holds(old(ledger), b)
      ensures !aborted ==> Chosen(old(Candidates()), if old(q.IsEmpty()) then if tmp then count / 4 * 3 else 0
              else if tmp then old(lastTmp) else old(lastFree), b)
      ensures !aborted && q.IsEmpty() ==> s == ledger.sets
    {
      hide Sound, Ahead, AllReady, Guarded, Showing, Grew;
      var updateSets := q.IsEmpty();
      if updateSets {
        lastTmp, lastFree := count / 4 * 3, 0;
      }
      b := Choose(tmp);
      if b == 0 {
        aborted := true;
        return;
      }
      GuardedSelf(ledger, s, q.Items());
      PickFree(ledger, base, s, q.Items(), skip, min, free, b);
      Enqueue(Item(b, tmp, false, false), false);
      GrewNone(start, script, free, count, turn, log);
      if updateSets && !aborted {
        ProcessQueue();
      }
    }

    // block_free_etc
    method Free(b: nat, tmp: bool)
      requires Steady() && !aborted && Legal(ledger, Item(b, tmp, true, false), false, free) && b < count
      modifies this`lastTmp, this`lastFree, this`s, this`base, this`skip, this`ledger, this`log, this`again,
               this`aborted, this`refused, this`turn, this`passes, q, q.entry
      ensures if aborted then Stuck()
              else Steady() && !q.IsEmpty() == !old(q.IsEmpty())
      ensures !aborted ==> Grown(old(turn), old(log) + [Asked(Item(b, tmp, true, false), false)])
      ensures !aborted && q.IsEmpty() ==> s == ledger.sets
    {
      hide Sound, Ahead, AllReady, Guarded, Showing, Grew;
      var updateSets := q.IsEmpty();
      Enqueue(Item(b, tmp, true, false), false);
      GrewNone(start, script, free, count, turn, log);
      if updateSets && !aborted {
        ProcessQueue();
      }
    }

    // ---- the merge of transaction_merge_free_sets ----

    // The set being built is changed up to the new cursor m; requests made meanwhile wait in the
    // queue behind a dummy item and are applied with the cursor in its new place.
    method MoveCursor(m: nat, next: set<nat>)
      requires Steady() && !aborted && q.IsEmpty() && s == ledger.sets
      requires Sound(ledger.(sets := ledger.sets.(next := next)), free, m)
      modifies this, q, q.entry
      ensures if aborted then Stuck() else (Steady() && q.IsEmpty() && s == ledger.sets && min == m)
      ensures !aborted ==> Grown(old(turn), old(log))
      ensures old(log) <= log && old(ledger.gone) <= ledger.gone
    {
      hide Sound, Ahead, AllReady, Guarded, Showing, Distinct, Grew;
      min := m;
      q.AddDummy();
      ledger := ledger.(sets := ledger.sets.(next := next));
      base := ledger.sets;
      AheadIdle(base, q.Items(), m, free);
      GuardedNext(ledger, base, s, q.Items());
      ghost var mid, at := log, turn;
      Nested();
      if !aborted {
        s := s.(next := next);
        GuardedNext(ledger, base, s, q.Items());
        mid, at := log, turn;
        Nested();
      }
      if !aborted {
        GrewJoin(start, script, free, count, old(turn), old(log), at, mid, turn, log);
        mid, at := log, turn;
        ProcessQueue();
        if !aborted {
          GrewJoin(start, script, free, count, old(turn), old(log), at, mid, turn, log);
        }
      }
    }

    // transaction_merge_free_sets
    method MergeFreeSets()
      requires Steady() && !aborted && q.IsEmpty() && s == ledger.sets && min == 0
      modifies this, q, q.entry
      ensures if aborted then Stuck()
              else (Steady() && q.IsEmpty() && s == ledger.sets && Merged(free, Total(start, log), s))
      ensures !aborted ==> Grown(old(turn), old(log))
      ensures old(log) <= log && old(ledger.gone) <= ledger.gone
    {
      hide Sound, Ahead, AllReady, Guarded, Showing, Distinct, Grew;
      GrewNone(start, script, free, count, turn, log);
      CursorStart(ledger, free);
      AheadIdle(s, q.Items(), 1, free);
      min := 1;
      while true
        invariant Steady() && !aborted && q.IsEmpty() && s == ledger.sets && min > 0
        invariant old(log) <= log && old(ledger.gone) <= ledger.gone && Grown(old(turn), old(log))
        decreases count - min
      {
        SoundParts(ledger, free, min);
        ghost var mid, at := log, turn;
        var d := NextRange(s.alloc, min, count);
        var a := NextRange(s.freed, min, count);
        if d.start < d.end && (a.start == a.end || d.start < a.start) {
          CursorDelete(ledger, free, min, d.start, d.end);
          MoveCursor(d.end, s.next - Stretch(d.start, d.end));
        } else if a.start < a.end {
          CursorAdd(ledger, free, min, a.start, a.end);
          MoveCursor(a.end, s.next + Stretch(a.start, a.end));
        } else {
          SoundDone(ledger, free, min);
          return;
        }
        if aborted {
          return;
        }
        GrewJoin(start, script, free, count, old(turn), old(log), at, mid, turn, log);
      }
    }
  }

  // block_set_find_next_range on the contents of a set
  method NextRange(s: set<nat>, from: nat, count: nat) returns (r: Range)
    requires forall b :: b in s ==> b < count
    ensures r.start <= r.end && (r.start == r.end ==> forall b :: b in s ==> b < from)
    ensures r.start < r.end ==>
              from <= r.start && r.end <= count && r.end !in s && forall b :: r.start <= b < r.end ==> b in s
    ensures r.start < r.end ==> forall b :: from <= b < r.start ==> b !in s
  {
    var a := from;
    while a < count && a !in s
      invariant a >= from && forall b :: from <= b < a ==> b !in s
    {
      a := a + 1;
    }
    if a >= count {
      return Range(0, 0);
    }
    var e := a + 1;
    while e in s
      invariant a < e <= count && forall b :: a <= b < e ==> b in s
      decreases count - e
    {
      e := e + 1;
    }
    r := Range(a, e);
  }
}
