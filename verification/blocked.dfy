/** Blocking, serving and unblocking clients (blocked.c). */
module Blocked {
  import opened Base
  import opened BlockedIndex

  // ---------------------------------------------------------------------
  // Who waits for a key

  /** The waiters that are not client `c`. */
  function Others(s: seq<Waiter>, c: nat): seq<Waiter> {
    if s == [] then [] else if s[0].client == c then Others(s[1..], c) else [s[0]] + Others(s[1..], c)
  }

  predicate Absent(s: seq<Waiter>, c: nat) { forall i | 0 <= i < |s| :: s[i].client != c }

  lemma {:induction false} NotThere(s: seq<Waiter>, c: nat)
    requires Absent(s, c)
    ensures Others(s, c) == s
  {
    if s != [] {
      NotThere(s[1..], c);
    }
  }

  lemma {:induction false} OthersAppend(a: seq<Waiter>, b: seq<Waiter>, c: nat)
    ensures Others(a + b, c) == Others(a, c) + Others(b, c)
  {
    if a == [] {
      assert a + b == b;
    } else {
      assert (a + b)[1..] == a[1..] + b;
      OthersAppend(a[1..], b, c);
    }
  }

  lemma OthersAround(a: seq<Waiter>, w: Waiter, b: seq<Waiter>)
    requires Absent(a, w.client) && Absent(b, w.client)
    ensures Others(a + [w] + b, w.client) == a + b
  {
    NotThere(a, w.client);
    NotThere(b, w.client);
    OthersAppend(a + [w], b, w.client);
    OthersAppend(a, [w], w.client);
    assert [w][1..] == [];
  }

  /** Leaving a list takes the client out of it and keeps the order of the others. */
  lemma LeaveWaiting(ix: Index, c: nat, k: Key, q: Key)
    requires Consistent(ix) && c in ix.clients && k in ix.clients[c].keys && k in ix.waiters
    ensures WaitersOf(Leave(ix, c, k), q) == if q == k then Others(WaitersOf(ix, q), c) else WaitersOf(ix, q)
  {
    var i := Place(ix, c, k);
    hide Unlink, Consistent;
    if q == k {
      var list := ix.waiters[k];
      var a, b := list[..i], list[i + 1..];
      assert list == a + [list[i]] + b;
      assert forall j | 0 <= j < |b| :: b[j] == list[i + 1 + j];
      OthersAround(a, list[i], b);
    }
  }

  /** A client without keys may be changed freely. */
  lemma TouchKeeps(ix: Index, c: nat, cl: Client)
    requires Consistent(ix) && (c in ix.clients ==> ix.clients[c].keys == map[]) && cl.keys == map[]
    ensures Consistent(ix.(clients := ix.clients[c := cl]))
  {
    var after := ix.(clients := ix.clients[c := cl]);
    forall k, w | k in ix.waiters && w in ix.waiters[k]
      ensures Known(after, k, w) && w.client != c
    {
      assert Known(ix, k, w);
    }
    forall k
      ensures CountOk(after, k)
    {
      assert CountOk(ix, k);
      CountSame(ix.clients, after.clients, WaitersOf(ix, k));
    }
  }

  // ---------------------------------------------------------------------
  // Counters and queues

  ghost function OfType(clients: map<nat, Client>, t: BType): set<nat> {
    set c | c in clients && clients[c].btype == t
  }

  ghost predicate CountersOk(clients: map<nat, Client>, byType: map<BType, nat>) {
    forall t: BType :: t in byType && (t != NONE ==> byType[t] == |OfType(clients, t)|)
  }

  lemma TypeChanges(clients: map<nat, Client>, byType: map<BType, nat>, c: nat, cl: Client)
    requires CountersOk(clients, byType) && c in clients && clients[c].btype != cl.btype
    ensures clients[c].btype != NONE ==> byType[clients[c].btype] > 0
    ensures var less := if clients[c].btype == NONE then byType else byType[clients[c].btype := byType[clients[c].btype] - 1];
      var more := if cl.btype == NONE then less else less[cl.btype := less[cl.btype] + 1];
      CountersOk(clients[c := cl], more)
  {
    var after, was, now := clients[c := cl], clients[c].btype, cl.btype;
    assert c in OfType(clients, was);
    assert OfType(after, was) == OfType(clients, was) - {c};
    assert OfType(after, now) == OfType(clients, now) + {c};
    assert c !in OfType(clients, now);
    assert byType[was] > 0 || was == NONE by { if was != NONE { assert |OfType(clients, was)| > 0; } }
    forall t: BType | t != was && t != now
      ensures OfType(after, t) == OfType(clients, t)
    {
    }
  }

  /** Same type, same counters. */
  lemma TypeStays(clients: map<nat, Client>, byType: map<BType, nat>, c: nat, cl: Client)
    requires CountersOk(clients, byType) && c in clients && clients[c].btype == cl.btype
    ensures CountersOk(clients[c := cl], byType)
  {
    forall t: BType
      ensures OfType(clients[c := cl], t) == OfType(clients, t)
    {
    }
  }

  predicate NoDup<T(==)>(s: seq<T>) { forall i, j | 0 <= i < j < |s| :: s[i] != s[j] }

  /** A client that is not blocked waits for nothing. */
  predicate Rested(cl: Client) { cl.btype == NONE ==> cl.keys == map[] && !cl.nokey }

  ghost predicate NodesBelow(waiters: map<Key, seq<Waiter>>, n: nat) {
    forall k, w | k in waiters && w in waiters[k] :: w.node < n
  }

  class Server {
    var clients: map<nat, Client>
    /** `blocking_keys` of all databases. */
    var waiters: map<Key, seq<Waiter>>
    /** `blocking_keys_unblock_on_nokey`. */
    var nokeys: map<Key, nat>
    var nextNode: nat
    /** `ready_keys` of the server, a list, and of its databases, a set. */
    var ready: seq<Key>
    var readyKeys: set<Key>
    var unblocked: seq<nat>
    var byType: map<BType, nat>

    function View(): Index
      reads this
    {
      Index(clients, waiters, nokeys)
    }

    /** `serving` are the ready keys already taken off the server's list. */
    ghost predicate ValidWhile(serving: seq<Key>)
      reads this
    {
      && Consistent(View()) && NodesBelow(waiters, nextNode) && CountersOk(clients, byType)
      && (forall c | c in clients :: Rested(clients[c]))
      && NoDup(ready + serving) && (forall k :: k in readyKeys <==> k in ready + serving)
      && NoDup(unblocked) && (forall c :: c in unblocked <==> c in clients && clients[c].queued)
    }

    ghost predicate Valid()
      reads this
    {
      ValidWhile([])
    }

    constructor ()
      ensures Valid() && clients == map[]
    {
      clients, waiters, nokeys, nextNode := map[], map[], map[], 0;
      ready, readyKeys, unblocked := [], {}, [];
      byType := map[NONE := 0, LIST := 0, ZSET := 0, STREAM := 0, MODULE := 0];
      new;
      forall t: BType
        ensures t in byType && byType[t] == 0 && OfType(clients, t) == {}
      {
        match t case NONE => case LIST => case ZSET => case STREAM => case MODULE =>
      }
    }

    /** `initClientBlockingState` of a new client. */
    method AddClient(c: nat)
      requires Valid() && c !in clients
      modifies this`clients
      ensures Valid() && clients == old(clients)[c := Client(NONE, map[], false, false, false)]
    {
      var cl := Client(NONE, map[], false, false, false);
      TouchKeeps(View(), c, cl);
      ghost var before := clients;
      hide Consistent;
      clients := clients[c := cl];
      forall t: BType | t != NONE
        ensures OfType(clients, t) == OfType(before, t)
      {
      }
      assert ready + [] == ready;
    }

    /** The body of the loop of `blockForKeys` for a key the client does not wait for yet. */
    method JoinKey(c: nat, k: Key)
      requires c in clients && k !in clients[c].keys
      modifies this`clients, this`waiters, this`nokeys, this`nextNode
      ensures View() == Join(old(View()), c, k, old(nextNode)) && nextNode == old(nextNode) + 1
      ensures c in clients && clients[c] == old(clients[c]).(keys := clients[c].keys)
    {
      var cl := clients[c];
      var l := if k in waiters then waiters[k] else [];
      waiters := waiters[k := l + [Waiter(nextNode, c)]];
      clients := clients[c := cl.(keys := cl.keys[k := nextNode])];
      nextNode := nextNode + 1;
      if cl.nokey {
        if k !in nokeys {
          nokeys := nokeys[k := 1];
        } else {
          nokeys := nokeys[k := nokeys[k] + 1];
        }
      }
    }

    /** The loop of `blockForKeys`. */
    method JoinKeys(c: nat, keys: seq<Key>)
      requires c in clients && clients[c].keys == map[] && NodesBelow(waiters, nextNode) && Consistent(View())
      modifies this`clients, this`waiters, this`nokeys, this`nextNode
      ensures NodesBelow(waiters, nextNode) && Consistent(View()) && Joined(old(View()), View(), KeySet(keys), c)
      ensures c in clients && clients[c] == old(clients[c]).(keys := clients[c].keys) && nextNode >= old(nextNode)
    {
      hide Consistent, NodesBelow, Joined, Join;
      JoinedNone(View(), c);
      for j := 0 to |keys|
        invariant NodesBelow(waiters, nextNode) && Consistent(View())
        invariant Joined(old(View()), View(), KeySet(keys[..j]), c)
        invariant c in clients && clients[c] == old(clients[c]).(keys := clients[c].keys) && nextNode >= old(nextNode)
      {
        ghost var ix := View();
        NextKey(keys, j);
        JoinedKeys(old(View()), ix, KeySet(keys[..j]), c);
        if keys[j] in clients[c].keys { continue; }
        JoinedMore(old(View()), ix, KeySet(keys[..j]), c, keys[j], nextNode);
        FreshNode(ix, nextNode, keys[j]);
        JoinKeeps(ix, c, keys[j], nextNode);
        JoinKey(c, keys[j]);
      }
      assert keys[..|keys|] == keys;
    }

    /** `blockForKeys`: the client goes to the end of the list of each of its keys. */
    method BlockForKeys(c: nat, btype: BType, keys: seq<Key>, nokey: bool, ghost serving: seq<Key>)
      requires ValidWhile(serving) && c in clients && clients[c].btype == NONE && btype != NONE
      modifies this`clients, this`waiters, this`nokeys, this`nextNode, this`byType
      ensures ValidWhile(serving) && Joined(old(View()), View(), KeySet(keys), c) && nextNode >= old(nextNode)
      ensures clients[c] == old(clients[c]).(btype := btype, keys := clients[c].keys, nokey := nokey,
                                             pending := btype != MODULE || old(clients[c].pending))
    {
      hide Consistent, NodesBelow, CountersOk, Joined;
      var cl := clients[c].(nokey := nokey);
      TouchKeeps(View(), c, cl);
      TypeStays(clients, byType, c, cl);
      clients := clients[c := cl];
      ghost var ix := View();
      JoinKeys(c, keys);
      JoinedKeys(ix, View(), KeySet(keys), c);
      TypeStays(ix.clients, byType, c, clients[c]);
      cl := clients[c];
      if btype != MODULE { cl := cl.(pending := true); }
      cl := cl.(btype := btype);
      SameKeys(View(), c, cl);
      NewType(clients, byType, c, cl);
      JoinedAround(old(View()), ix, View(), KeySet(keys), c, cl);
      byType := byType[btype := byType[btype] + 1];
      clients := clients[c := cl];
    }

    /** `releaseBlockedEntry`. */
    method ReleaseBlockedEntry(c: nat, k: Key, removeKey: bool)
      requires c in clients && k in clients[c].keys && k in waiters
      requires clients[c].nokey && Unlink(waiters[k], clients[c].keys[k]) != [] ==> k in nokeys && nokeys[k] >= 1
      modifies this`clients, this`waiters, this`nokeys
      ensures var left := Leave(old(View()), c, k);
        waiters == left.waiters && nokeys == left.nokeys && clients == if removeKey then left.clients else old(clients)
    {
      var pos := clients[c].keys[k];
      var l := Unlink(waiters[k], pos);
      if |l| == 0 {
        waiters := waiters - {k};
        nokeys := nokeys - {k};
      } else {
        waiters := waiters[k := l];
        if clients[c].nokey {
          nokeys := nokeys[k := nokeys[k] - 1];
          if nokeys[k] == 0 { nokeys := nokeys - {k}; }
        }
      }
      if removeKey { clients := clients[c := clients[c].(keys := clients[c].keys - {k})]; }
    }

    /** `unblockClientWaitingData`: the client leaves the lists of all its keys. */
    method UnblockClientWaitingData(c: nat)
      requires c in clients && Consistent(View()) && NodesBelow(waiters, nextNode)
      modifies this`clients, this`waiters, this`nokeys
      ensures Consistent(View()) && NodesBelow(waiters, nextNode) && AllLeft(old(View()), View(), c)
    {
      hide Consistent, NodesBelow, Left, Leave;
      if clients[c].keys == map[] {
        LeftNothing(View(), c);
        return;
      }
      ghost var ix := View();
      var rest := clients[c].keys.Keys;
      LeftNone(ix, c);
      while rest != {}
        invariant clients == old(clients) && rest <= clients[c].keys.Keys
        invariant ix.waiters == waiters && ix.nokeys == nokeys && Consistent(ix) && NodesBelow(waiters, nextNode)
        invariant Left(old(View()), ix, rest, c)
        decreases rest
      {
        var k :| k in rest;
        LeftKeys(old(View()), ix, rest, c);
        LeaveKeeps(ix, c, k);
        EntryThere(ix, c, k);
        LeaveTables(View(), ix, c, k);
        NodesLeft(ix, c, k, nextNode);
        LeftMore(old(View()), ix, rest, c, k);
        ReleaseBlockedEntry(c, k, false);
        ix := Leave(ix, c, k);
        rest := rest - {k};
      }
      LeftKeys(old(View()), ix, {}, c);
      LeftAll(old(View()), ix, c);
      clients := clients[c := clients[c].(keys := map[])];
      assert View() == ix;
    }

    /** `queueClientForReprocessing`: not twice. */
    method QueueForReprocessing(c: nat, ghost serving: seq<Key>)
      requires ValidWhile(serving) && c in clients
      modifies this`clients, this`unblocked
      ensures ValidWhile(serving) && clients == old(clients)[c := old(clients[c]).(queued := true)]
      ensures unblocked == if old(clients[c].queued) then old(unblocked) else old(unblocked) + [c]
    {
      hide Consistent, NodesBelow, CountersOk;
      var cl := clients[c].(queued := true);
      SameKeys(View(), c, cl);
      TypeStays(clients, byType, c, cl);
      if !clients[c].queued {
        clients := clients[c := cl];
        unblocked := unblocked + [c];
      } else {
        assert clients == clients[c := cl];
      }
    }

    /** `unblockClient`. */
    method UnblockClient(c: nat, queue: bool, ghost serving: seq<Key>)
      requires ValidWhile(serving) && c in clients && clients[c].btype != NONE
      modifies this`clients, this`waiters, this`nokeys, this`byType, this`unblocked
      ensures ValidWhile(serving) && Freed(old(View()), View(), c)
      ensures clients[c] == old(clients[c]).(btype := NONE, keys := map[], nokey := false, queued := queue || old(clients[c].queued))
      ensures unblocked == if queue && !old(clients[c].queued) then old(unblocked) + [c] else old(unblocked)
    {
      hide Consistent, NodesBelow, CountersOk, AllLeft;
      ghost var first := View();
      UnblockClientWaitingData(c);
      ghost var ix := View();
      LeftClient(first, ix, c);
      TypeStays(first.clients, byType, c, clients[c]);
      var cl := clients[c].(btype := NONE, nokey := false);
      TouchKeeps(ix, c, cl);
      OldType(clients, byType, c, cl);
      FreedBy(first, ix, c, cl);
      byType := byType[clients[c].btype := byType[clients[c].btype] - 1];
      clients := clients[c := cl];
      if queue {
        QueueForReprocessing(c, serving);
        FreedBy(first, ix, c, cl.(queued := true));
      }
    }

    /** `unblockClientOnTimeout`; `moduleUnblocked` if the module has already put the client
        on its own list of clients to be unblocked. */
    method UnblockClientOnTimeout(c: nat, moduleUnblocked: bool)
      requires Valid() && c in clients && clients[c].btype != NONE
      modifies this`clients, this`waiters, this`nokeys, this`byType, this`unblocked
      ensures Valid()
      ensures if old(clients[c].btype) == MODULE && moduleUnblocked
        then View() == old(View()) && byType == old(byType) && unblocked == old(unblocked)
        else Freed(old(View()), View(), c) && c in unblocked && !clients[c].pending
    {
      if clients[c].btype == MODULE && moduleUnblocked { return; }
      UnblockClientOnError(c);
    }

    /** `unblockClientOnError`: the pending command was answered. */
    method UnblockClientOnError(c: nat)
      requires Valid() && c in clients && clients[c].btype != NONE
      modifies this`clients, this`waiters, this`nokeys, this`byType, this`unblocked
      ensures Valid() && Freed(old(View()), View(), c) && c in unblocked && !clients[c].pending
    {
      hide Consistent, NodesBelow, CountersOk, AllLeft, Freed;
      var cl := clients[c].(pending := false);
      SameKeys(View(), c, cl);
      TypeStays(clients, byType, c, cl);
      ghost var first := View();
      clients := clients[c := cl];
      ghost var ix := View();
      UnblockClient(c, true, []);
      FreedSame(first, ix, View(), c);
    }

    /** `signalKeyAsReadyLogic`: whoever waits for this is going to be served. */
    method SignalKeyAsReady(k: Key, btype: BType, deleted: bool, ghost serving: seq<Key>)
      requires ValidWhile(serving)
      modifies this`ready, this`readyKeys
      ensures ValidWhile(serving)
      ensures ready == old(ready) || (ready == old(ready) + [k] && k !in old(ready) && k in waiters)
      ensures forall c | c in clients && k in clients[c].keys && btype != NONE
        && (clients[c].btype == btype || clients[c].btype == MODULE) && (deleted ==> clients[c].nokey) :: k in ready + serving
    {
      NoLostSignal(View(), byType, k, btype, deleted);
      hide Consistent, NodesBelow;
      if btype == NONE { return; }
      if byType[btype] == 0 && byType[MODULE] == 0 { return; }
      if deleted {
        if k !in nokeys { return; }
      } else {
        if k !in waiters { return; }
      }
      if k in readyKeys { return; }
      ReadyMore(ready, serving, k);
      readyKeys := readyKeys + {k};
      ready := ready + [k];
    }

    method SignalAll(signals: seq<Signal>, ghost serving: seq<Key>)
      requires ValidWhile(serving)
      modifies this`ready, this`readyKeys
      ensures ValidWhile(serving) && old(ready) <= ready
    {
      hide Consistent, NodesBelow, CountersOk;
      for i := 0 to |signals|
        invariant ValidWhile(serving) && old(ready) <= ready
      {
        SignalKeyAsReady(signals[i].k, signals[i].btype, signals[i].deleted, serving);
      }
    }

    /** `processCommandAndResetClient` of a client just unblocked, and what follows it. */
    method Reprocess(c: nat, outcome: Outcome, ghost serving: seq<Key>)
      requires ValidWhile(serving) && c in clients && clients[c].btype == NONE
      modifies this
      ensures ValidWhile(serving) && Regained(old(View()), View(), c) && nextNode >= old(nextNode) && old(ready) <= ready
    {
      hide Consistent, NodesBelow, CountersOk;
      if clients[c].pending {
        var cl := clients[c].(pending := false);
        ghost var first := View();
        SameKeys(View(), c, cl);
        TypeStays(clients, byType, c, cl);
        clients := clients[c := cl];
        SignalAll(outcome.signals, serving);
        ghost var ix := View();
        if outcome.Blocks? && outcome.btype != NONE {
          BlockForKeys(c, outcome.btype, outcome.keys, outcome.nokey, serving);
          RegainedBy(first, ix, View(), KeySet(outcome.keys), c);
        } else {
          QueueForReprocessing(c, serving);
          RegainedNothing(first, View(), c);
        }
      } else {
        RegainedNothing(View(), View(), c);
      }
    }

    /** `unblockClientOnKey`: the client leaves all its lists, and its command runs again. */
    method UnblockClientOnKey(c: nat, k: Key, outcome: Outcome, ghost serving: seq<Key>)
      requires ValidWhile(serving) && c in clients && k in clients[c].keys && clients[c].btype != MODULE
      modifies this
      ensures ValidWhile(serving) && Moved(old(View()), View(), c) && nextNode >= old(nextNode) && old(ready) <= ready
    {
      hide Consistent, NodesBelow, CountersOk, Freed, Regained, Leave;
      ghost var first := View();
      LeaveKeeps(first, c, k);
      EntryThere(first, c, k);
      NodesLeft(first, c, k, nextNode);
      LeaveClients(first, c, k);
      LeaveIsThere(first, c, k);
      ReleaseBlockedEntry(c, k, true);
      ghost var ix := View();
      TypeStays(first.clients, byType, c, clients[c]);
      assert clients[c].btype in {LIST, ZSET, STREAM};
      UnblockClient(c, false, serving);
      ghost var free := View();
      FreedFields(ix, free, c);
      Reprocess(c, outcome, serving);
      MovedBy(first, k, free, View(), c);
    }

    lemma ValidIndex(serving: seq<Key>)
      requires ValidWhile(serving)
      ensures Consistent(View())
    {
    }

    /** The body of the loop of `handleClientsBlockedOnKey` for one receiver. */
    method ServeReceiver(receiver: nat, k: Key, visit: Visit, ghost serving: seq<Key>)
      requires ValidWhile(serving) && receiver in clients && k in clients[receiver].keys
      modifies this
      ensures ValidWhile(serving) && old(ready) <= ready
      ensures if Served(old(clients[receiver]), visit) then Moved(old(View()), View(), receiver) else View() == old(View())
    {
      hide Consistent, NodesBelow, CountersOk, Moved;
      var cl := clients[receiver];
      var o := visit.found;
      if (o.Some? && cl.btype == o.value) || (o.Some? && cl.btype == MODULE) || cl.nokey {
        if cl.btype != MODULE {
          UnblockClientOnKey(receiver, k, visit.outcome, serving);
        }
      }
    }

    /** One round of the loop of `handleClientsBlockedOnKey`: the client at the node, and
        the node behind it. */
    method VisitNext(k: Key, node: nat, visit: Visit, ghost serving: seq<Key>, ghost first: seq<Waiter>, ghost n: nat,
                     ghost before: map<nat, Client>, ghost visits: seq<Visit>, ghost back: seq<Waiter>)
      returns (receiver: nat, next: Option<nat>, ghost more: seq<Waiter>)
      requires ValidWhile(serving) && Halfway(View(), k, first, n, before, visits, back)
      requires n < |first| && node == first[n].node && visit == VisitAt(visits, n)
      modifies this
      ensures ValidWhile(serving) && old(ready) <= ready && receiver == first[n].client
      ensures n + 1 < |first| ==> next == Some(first[n + 1].node)
      ensures Halfway(View(), k, first, n + 1, before, visits, more)
    {
      hide Consistent, Moved, ValidWhile, NodeIndex, Served, Halfway;
      ghost var ix := View();
      ValidIndex(serving);
      ghost var place := NextReceiver(ix, k, first, n, before, visits, back);
      var list := waiters[k];
      var at := NodeIndex(list, node);
      receiver := list[at].client;
      next := if at + 1 < |list| then Some(list[at + 1].node) else None;
      ServeReceiver(receiver, k, visit, serving);
      more := OneServed(ix, View(), k, first, n, before, visits, back);
    }

    /** `handleClientsBlockedOnKey`: every client waiting at the start is visited exactly
        once, in the order in which they blocked, even if some block again. Those it is
        meant for have left the list or are back at its end; the others keep their order. */
    method HandleClientsBlockedOnKey(k: Key, visits: seq<Visit>, ghost serving: seq<Key>)
      returns (visited: seq<nat>, ghost back: seq<Waiter>)
      requires ValidWhile(serving)
      modifies this
      ensures ValidWhile(serving) && old(ready) <= ready
      ensures |visited| == |old(WaitersOf(View(), k))|
      ensures forall i | 0 <= i < |visited| :: visited[i] == old(WaitersOf(View(), k))[i].client
      ensures WaitersOf(View(), k) == Unserved(old(WaitersOf(View(), k)), old(clients), visits) + back
      ensures forall w | w in back :: w.client in visited
    {
      hide Consistent, Moved, ValidWhile, NodeIndex, WaitersOf, Served, Unserved, Halfway;
      visited, back := [], [];
      ListIs(View(), k);
      NoneServed(clients, visits);
      if k !in waiters { return; }
      ValidIndex(serving);
      ghost var first := waiters[k];
      HeadNode(View(), k);
      var next: Option<nat> := Some(waiters[k][0].node);
      var count := |waiters[k]|;
      NobodyServed(View(), k, visits);
      while next.Some? && count > 0
        invariant ValidWhile(serving) && old(ready) <= ready
        invariant 0 <= count <= |first| && |visited| == |first| - count
        invariant forall i | 0 <= i < |visited| :: visited[i] == first[i].client
        invariant Halfway(View(), k, first, |visited|, old(clients), visits, back)
        invariant count > 0 ==> next == Some(first[|visited|].node)
        decreases count
      {
        var receiver;
        receiver, next, back := VisitNext(k, next.value, VisitAt(visits, |visited|), serving, first, |visited|, old(clients), visits, back);
        count := count - 1;
        visited := visited + [receiver];
      }
      EveryoneServed(View(), k, first, old(clients), visits, back, visited);
    }

    /** The body of the loop of `handleClientsBlockedOnKeys` for the first key of `l`. */
    method ServeReadyKey(l: seq<Key>, visits: seq<Visit>)
      requires l != [] && ValidWhile(l)
      modifies this
      ensures ValidWhile(l[1..]) && Handled(old(View()), View(), l[0], visits)
    {
      hide Consistent, NodesBelow, CountersOk, Handled;
      TakeKey(ready, l);
      readyKeys := readyKeys - {l[0]};
      assert ValidWhile(l[1..]);
      hide ValidWhile;
      ghost var before := View();
      var visited, back := HandleClientsBlockedOnKey(l[0], visits, l[1..]);
      HandledBy(before, View(), l[0], visits, visited, back);
    }

    /** One pass of `handleClientsBlockedOnKeys` over the keys that are ready: each one is
        handled once, in order, as the tables through which the pass goes show. */
    method ServeReadyKeys(round: Round) returns (served: seq<Key>, ghost tables: seq<Index>)
      requires Valid()
      modifies this
      ensures Valid() && served == old(ready)
      ensures |tables| == |served| + 1 && tables[0] == old(View()) && tables[|served|] == View()
      ensures forall i | 0 <= i < |served| :: Handled(tables[i], tables[i + 1], served[i], VisitsAt(round, i))
    {
      var l := ready;
      ready := [];
      assert [] + l == l && l + [] == l;
      assert ValidWhile(l) by { hide Consistent, NodesBelow, CountersOk; }
      hide ValidWhile, Handled, VisitsAt;
      served, tables := [], [View()];
      while |l| != 0
        invariant ValidWhile(l) && served + l == old(ready)
        invariant |tables| == |served| + 1 && tables[0] == old(View()) && tables[|served|] == View()
        invariant forall i | 0 <= i < |served| :: Handled(tables[i], tables[i + 1], served[i], VisitsAt(round, i))
        decreases |l|
      {
        ServeReadyKey(l, VisitsAt(round, |served|));
        served, l := served + [l[0]], l[1..];
        tables := tables + [View()];
      }
    }

    /** `handleClientsBlockedOnKeys`: served clients may make further keys ready. The
        rounds are those observed until no key is ready. */
    method HandleClientsBlockedOnKeys(rounds: seq<Round>) returns (passes: nat)
      requires Valid()
      modifies this
      ensures Valid() && passes <= |rounds| && (passes < |rounds| ==> ready == [])
    {
      hide ValidWhile;
      passes := 0;
      while |ready| != 0 && passes < |rounds|
        invariant Valid() && passes <= |rounds|
        decreases |rounds| - passes
      {
        var served, _ := ServeReadyKeys(rounds[passes]);
        passes := passes + 1;
      }
    }
  }

  lemma TakeKey(ready: seq<Key>, l: seq<Key>)
    requires l != [] && NoDup(ready + l)
    ensures NoDup(ready + l[1..])
    ensures forall k :: k in ready + l[1..] <==> k in ready + l && k != l[0]
  {
    var a, b, n := ready + l, ready + l[1..], |ready|;
    assert a[n] == l[0];
    assert forall i | 0 <= i < |b| :: b[i] == a[if i < n then i else i + 1];
    forall k
      ensures k in b <==> k in a && k != l[0]
    {
      assert l == [l[0]] + l[1..];
      assert k in a <==> k in ready || k == l[0] || k in l[1..];
    }
  }

  /** A key with its visits. */
  datatype Round = Round(visits: seq<seq<Visit>>)

  /** The object found under the key when a waiter is looked at, and what its command does. */
  datatype Visit = Visit(found: Option<BType>, outcome: Outcome)

  function VisitsAt(round: Round, i: nat): seq<Visit> { if i < |round.visits| then round.visits[i] else [] }

  /** Handling a key: the waiters its visits are not meant for keep their order, followed
      by those of the others that blocked again. */
  ghost predicate Handled(before: Index, after: Index, k: Key, visits: seq<Visit>) {
    exists back :: WaitersOf(after, k) == Unserved(WaitersOf(before, k), before.clients, visits) + back && CameBack(WaitersOf(before, k), back)
  }

  predicate CameBack(first: seq<Waiter>, back: seq<Waiter>) {
    forall w | w in back :: exists i :: 0 <= i < |first| && first[i].client == w.client
  }

  lemma HandledBy(before: Index, after: Index, k: Key, visits: seq<Visit>, visited: seq<nat>, back: seq<Waiter>)
    requires |visited| == |WaitersOf(before, k)| && forall i | 0 <= i < |visited| :: visited[i] == WaitersOf(before, k)[i].client
    requires WaitersOf(after, k) == Unserved(WaitersOf(before, k), before.clients, visits) + back
    requires forall w | w in back :: w.client in visited
    ensures Handled(before, after, k, visits)
  {
    hide WaitersOf, Unserved;
    forall w | w in back
      ensures exists i :: 0 <= i < |WaitersOf(before, k)| && WaitersOf(before, k)[i].client == w.client
    {
      var i :| 0 <= i < |visited| && visited[i] == w.client;
    }
    assert CameBack(WaitersOf(before, k), back);
  }

  function VisitAt(visits: seq<Visit>, i: nat): Visit { if i < |visits| then visits[i] else Visit(None, Completes([])) }

  predicate Wanted(cl: Client, visit: Visit) {
    (visit.found.Some? && (cl.btype == visit.found.value || cl.btype == MODULE)) || cl.nokey
  }

  /** Unblocked by the visit; whether a module unblocks its clients is up to the module. */
  predicate Served(cl: Client, visit: Visit) { Wanted(cl, visit) && cl.btype != MODULE }

  /** The waiters of a list that its visits do not unblock. */
  function Unserved(list: seq<Waiter>, clients: map<nat, Client>, visits: seq<Visit>): seq<Waiter> {
    if list == [] then []
    else
      var n := |list| - 1;
      var w := list[n];
      Unserved(list[..n], clients, visits) + if w.client in clients && Served(clients[w.client], VisitAt(visits, n)) then [] else [w]
  }

  lemma NoneServed(clients: map<nat, Client>, visits: seq<Visit>)
    ensures Unserved([], clients, visits) == []
  {
  }

  lemma UnservedStep(list: seq<Waiter>, i: nat, clients: map<nat, Client>, visits: seq<Visit>)
    requires i < |list| && list[i].client in clients
    ensures Unserved(list[..i + 1], clients, visits) ==
      Unserved(list[..i], clients, visits) + if Served(clients[list[i].client], VisitAt(visits, i)) then [] else [list[i]]
  {
    assert list[..i + 1][..i] == list[..i];
  }

  /** The clients of these waiters are as they were. */
  predicate Untouched(list: seq<Waiter>, before: map<nat, Client>, now: map<nat, Client>) {
    forall i | 0 <= i < |list| ::
      list[i].client in before && list[i].client in now && now[list[i].client] == before[list[i].client]
  }

  /** The list after the first `n` of the waiters in `first` were visited: those not
      unblocked, those still to be visited, and those that came back. */
  ghost predicate Halfway(ix: Index, k: Key, first: seq<Waiter>, n: nat, clients: map<nat, Client>, visits: seq<Visit>, back: seq<Waiter>) {
    && n <= |first| && WaitersOf(ix, k) == Unserved(first[..n], clients, visits) + first[n..] + back
    && Untouched(first[n..], clients, ix.clients)
    && (forall i | 0 <= i < |back| :: exists j :: 0 <= j < n && first[j].client == back[i].client)
  }

  lemma NobodyServed(ix: Index, k: Key, visits: seq<Visit>)
    requires Consistent(ix) && k in ix.waiters
    ensures Halfway(ix, k, ix.waiters[k], 0, ix.clients, visits, [])
  {
    var list := ix.waiters[k];
    assert list[0..] == list && list[..0] == [] && [] + list + [] == list;
    forall i | 0 <= i < |list|
      ensures list[i].client in ix.clients
    {
      assert Known(ix, k, list[i]);
    }
  }

  lemma NextReceiver(ix: Index, k: Key, first: seq<Waiter>, n: nat, clients: map<nat, Client>, visits: seq<Visit>, back: seq<Waiter>)
    returns (at: nat)
    requires Consistent(ix) && Halfway(ix, k, first, n, clients, visits, back) && n < |first|
    ensures k in ix.waiters && at < |ix.waiters[k]| && ix.waiters[k][at] == first[n]
    ensures (exists i :: 0 <= i < |ix.waiters[k]| && ix.waiters[k][i].node == first[n].node)
    ensures NodeIndex(ix.waiters[k], first[n].node) == at
    ensures n + 1 < |first| ==> at + 1 < |ix.waiters[k]| && ix.waiters[k][at + 1] == first[n + 1]
    ensures first[n].client in clients && first[n].client in ix.clients && ix.clients[first[n].client] == clients[first[n].client]
    ensures k in ix.clients[first[n].client].keys
  {
    hide Consistent, WaitersOf, Unserved, NodeIndex;
    var kept, pending := Unserved(first[..n], clients, visits), first[n..];
    Current(ix, k, kept, pending, back);
    at := |kept|;
    assert pending[0] == first[n];
  }

  lemma OneServed(ix: Index, after: Index, k: Key, first: seq<Waiter>, n: nat, clients: map<nat, Client>, visits: seq<Visit>, back: seq<Waiter>)
    returns (more: seq<Waiter>)
    requires Consistent(ix) && Halfway(ix, k, first, n, clients, visits, back) && n < |first| && first[n].client in clients
    requires if Served(clients[first[n].client], VisitAt(visits, n)) then Moved(ix, after, first[n].client) else after == ix
    ensures Halfway(after, k, first, n + 1, clients, visits, more)
  {
    hide Consistent, WaitersOf, Unserved, Moved, Served;
    var kept, pending := Unserved(first[..n], clients, visits), first[n..];
    assert pending[0] == first[n] && pending[1..] == first[n + 1..];
    UnservedStep(first, n, clients, visits);
    StillUntouched(ix, after, k, kept, pending, back, clients);
    more := back;
    if Served(clients[first[n].client], VisitAt(visits, n)) {
      more := Advance(ix, after, k, kept, pending, back);
      forall i | 0 <= i < |more|
        ensures exists j :: 0 <= j < n + 1 && first[j].client == more[i].client
      {
        assert more[i] in more;
        if more[i] in back {
          var b :| 0 <= b < |back| && back[b] == more[i];
        }
      }
    } else {
      KeepOne(kept, first, n, back);
    }
  }

  lemma EveryoneServed(ix: Index, k: Key, first: seq<Waiter>, clients: map<nat, Client>, visits: seq<Visit>, back: seq<Waiter>, visited: seq<nat>)
    requires Halfway(ix, k, first, |first|, clients, visits, back)
    requires |visited| == |first| && forall i | 0 <= i < |visited| :: visited[i] == first[i].client
    ensures WaitersOf(ix, k) == Unserved(first, clients, visits) + back
    ensures forall w | w in back :: w.client in visited
  {
    hide WaitersOf, Unserved;
    var kept := Unserved(first, clients, visits);
    assert first[..|first|] == first && kept + first[|first|..] == kept;
    forall w | w in back
      ensures w.client in visited
    {
      var i :| 0 <= i < |back| && back[i] == w;
      var j :| 0 <= j < |first| && first[j].client == back[i].client;
      assert visited[j] == w.client;
    }
  }

  /** Serving a waiter does not touch the clients behind it in the list. */
  lemma StillUntouched(ix: Index, after: Index, k: Key, kept: seq<Waiter>, pending: seq<Waiter>, back: seq<Waiter>, first: map<nat, Client>)
    requires Consistent(ix) && WaitersOf(ix, k) == kept + pending + back && pending != []
    requires Untouched(pending, first, ix.clients) && (after == ix || Moved(ix, after, pending[0].client))
    ensures Untouched(pending[1..], first, after.clients)
  {
    hide Consistent, WaitersOf;
    var w, b := pending[0], pending[1..] + back;
    assert pending == [w] + pending[1..];
    assert kept + pending + back == kept + [w] + b;
    OnlyHere(ix, k, kept, w, b);
    assert forall i | 0 <= i < |pending[1..]| :: pending[1..][i] == b[i] && pending[1..][i] == pending[i + 1];
  }

  function NodeIndex(list: seq<Waiter>, node: nat): (i: nat)
    requires exists i :: 0 <= i < |list| && list[i].node == node
    ensures i < |list| && list[i].node == node
  {
    if list[0].node == node then 0
    else
      assert exists i :: 0 <= i < |list[1..]| && list[1..][i].node == node by {
        var i :| 0 <= i < |list| && list[i].node == node;
        assert list[1..][i - 1].node == node;
      }
      1 + NodeIndex(list[1..], node)
  }

  lemma ListIs(ix: Index, k: Key)
    ensures WaitersOf(ix, k) == if k in ix.waiters then ix.waiters[k] else []
  {
  }

  lemma KeepOne(kept: seq<Waiter>, first: seq<Waiter>, i: nat, back: seq<Waiter>)
    requires i < |first|
    ensures kept + first[i..] + back == kept + [first[i]] + first[i + 1..] + back
  {
    assert first[i..] == [first[i]] + first[i + 1..];
  }

  lemma HeadNode(ix: Index, k: Key)
    requires Consistent(ix) && k in ix.waiters
    ensures ix.waiters[k] != []
  {
  }

  /** The waiter looked at next stands right behind those that were kept. */
  lemma Current(ix: Index, k: Key, kept: seq<Waiter>, pending: seq<Waiter>, back: seq<Waiter>)
    requires Consistent(ix) && WaitersOf(ix, k) == kept + pending + back && pending != []
    ensures k in ix.waiters && ix.waiters[k] == kept + pending + back
    ensures (exists i :: 0 <= i < |ix.waiters[k]| && ix.waiters[k][i].node == pending[0].node)
    ensures NodeIndex(ix.waiters[k], pending[0].node) == |kept|
    ensures pending[0].client in ix.clients && k in ix.clients[pending[0].client].keys
    ensures |pending| > 1 ==> |kept| + 1 < |ix.waiters[k]| && ix.waiters[k][|kept| + 1] == pending[1]
  {
    var list := ix.waiters[k];
    assert list[|kept|] == pending[0];
    assert UniqueNodes(list);
    var at := NodeIndex(list, pending[0].node);
    assert list[|kept|] in list;
    assert Known(ix, k, list[|kept|]);
  }

  /** A served waiter is gone from its place; if it blocked again it is at the end. */
  lemma Advance(ix: Index, after: Index, k: Key, kept: seq<Waiter>, pending: seq<Waiter>, back: seq<Waiter>)
    returns (more: seq<Waiter>)
    requires Consistent(ix) && WaitersOf(ix, k) == kept + pending + back && pending != []
    requires Moved(ix, after, pending[0].client)
    ensures WaitersOf(after, k) == kept + pending[1..] + more
    ensures forall v | v in more :: v in back || v.client == pending[0].client
  {
    hide Consistent, Others, WaitersOf, Absent;
    var w := pending[0];
    var b := pending[1..] + back;
    assert pending == [w] + pending[1..];
    assert kept + pending + back == kept + [w] + b;
    OnlyHere(ix, k, kept, w, b);
    OthersAround(kept, w, b);
    var tail := if k in after.clients[w.client].keys then [Waiter(after.clients[w.client].keys[k], w.client)] else [];
    more := back + tail;
    assert kept + b + tail == kept + pending[1..] + more;
  }

  lemma OnlyHere(ix: Index, k: Key, a: seq<Waiter>, w: Waiter, b: seq<Waiter>)
    requires Consistent(ix) && WaitersOf(ix, k) == a + [w] + b
    ensures Absent(a, w.client) && Absent(b, w.client)
  {
    var list := WaitersOf(ix, k);
    assert k in ix.waiters && list[|a|] == w && w in ix.waiters[k];
    assert Known(ix, k, w);
    ExactlyOnce(ix, w.client, k);
    hide Consistent;
    assert forall i | 0 <= i < |a| :: a[i] == list[i];
    assert forall i | 0 <= i < |b| :: b[i] == list[|a| + 1 + i];
  }

  /** Client `c` left all its lists, and may be back at the end of some. */
  ghost predicate Moved(before: Index, after: Index, c: nat) {
    && c in before.clients && c in after.clients && after.clients == before.clients[c := after.clients[c]]
    && (forall k :: WaitersOf(after, k) ==
          Others(WaitersOf(before, k), c) + if k in after.clients[c].keys then [Waiter(after.clients[c].keys[k], c)] else [])
  }

  lemma LeaveIsThere(ix: Index, c: nat, k: Key)
    requires c in ix.clients && k in ix.clients[c].keys && k in ix.waiters
    ensures Leave(ix, c, k) == Index(Leave(ix, c, k).clients, Leave(ix, c, k).waiters, Leave(ix, c, k).nokeys)
  {
  }

  lemma FreedFields(before: Index, after: Index, c: nat)
    requires Freed(before, after, c)
    ensures c in after.clients && after.clients[c].btype == NONE && after.clients == before.clients[c := after.clients[c]]
  {
  }

  lemma {:induction false} OthersTwice(s: seq<Waiter>, c: nat)
    ensures Others(Others(s, c), c) == Others(s, c)
  {
    if s != [] {
      OthersTwice(s[1..], c);
      if s[0].client != c {
        assert Others(s, c)[1..] == Others(s[1..], c);
      }
    }
  }

  lemma MovedBy(first: Index, k: Key, free: Index, last: Index, c: nat)
    requires Consistent(first) && c in first.clients && k in first.clients[c].keys && k in first.waiters
    requires Freed(Leave(first, c, k), free, c) && Regained(free, last, c)
    ensures Moved(first, last, c)
  {
    LeaveClients(first, c, k);
    hide Consistent, Leave, WaitersOf;
    forall q
      ensures WaitersOf(free, q) == Others(WaitersOf(first, q), c)
    {
      LeaveWaiting(first, c, k, q);
      OthersTwice(WaitersOf(first, q), c);
    }
    assert last.clients == first.clients[c := last.clients[c]];
  }

  /** Where executing the command again leads. */
  datatype Outcome =
    | Completes(signals: seq<Signal>)
    | Blocks(signals: seq<Signal>, btype: BType, keys: seq<Key>, nokey: bool)

  /** Client `c`, which waited for nothing, may now be at the end of some lists. */
  ghost predicate Regained(before: Index, after: Index, c: nat) {
    && c in before.clients && c in after.clients && after.clients == before.clients[c := after.clients[c]]
    && (forall k :: WaitersOf(after, k) ==
          WaitersOf(before, k) + if k in after.clients[c].keys then [Waiter(after.clients[c].keys[k], c)] else [])
  }

  lemma RegainedBy(first: Index, before: Index, after: Index, keys: set<Key>, c: nat)
    requires Joined(before, after, keys, c) && c in first.clients && first.waiters == before.waiters
    requires before.clients == first.clients[c := before.clients[c]]
    ensures Regained(first, after, c)
  {
    assert forall k :: WaitersOf(first, k) == WaitersOf(before, k);
    assert after.clients == first.clients[c := after.clients[c]];
  }

  lemma RegainedNothing(before: Index, after: Index, c: nat)
    requires c in before.clients && c in after.clients && after.clients == before.clients[c := after.clients[c]]
    requires before.waiters == after.waiters && after.clients[c].keys == map[]
    ensures Regained(before, after, c)
  {
  }

  /** A key touched by a command that is executed again. */
  datatype Signal = Signal(k: Key, btype: BType, deleted: bool)

  lemma ReadyMore(ready: seq<Key>, serving: seq<Key>, k: Key)
    requires NoDup(ready + serving) && k !in ready + serving
    ensures NoDup(ready + [k] + serving) && forall q :: q in ready + [k] + serving <==> q in ready + serving || q == k
  {
    var a, b := ready + serving, ready + [k] + serving;
    var n := |ready|;
    forall i, j | 0 <= i < j < |b|
      ensures b[i] != b[j]
    {
      assert i != n ==> b[i] == a[if i < n then i else i - 1] && b[i] in a;
      assert j != n ==> b[j] == a[if j < n then j else j - 1] && b[j] in a;
    }
    forall q
      ensures q in b <==> q in a || q == k
    {
      assert b[n] == k;
      assert q in b <==> q in ready || q == k || q in serving;
    }
  }

  lemma NoLostSignal(ix: Index, byType: map<BType, nat>, k: Key, btype: BType, deleted: bool)
    requires Consistent(ix) && CountersOk(ix.clients, byType)
    ensures k in ix.nokeys ==> k in ix.waiters
    ensures forall c | c in ix.clients && k in ix.clients[c].keys && btype != NONE
      && (ix.clients[c].btype == btype || ix.clients[c].btype == MODULE) && (deleted ==> ix.clients[c].nokey) ::
      (byType[btype] > 0 || byType[MODULE] > 0) && k in ix.waiters && (deleted ==> k in ix.nokeys)
  {
    assert CountOk(ix, k);
    forall c | c in ix.clients && k in ix.clients[c].keys && btype != NONE
      && (ix.clients[c].btype == btype || ix.clients[c].btype == MODULE) && (deleted ==> ix.clients[c].nokey)
      ensures (byType[btype] > 0 || byType[MODULE] > 0) && k in ix.waiters && (deleted ==> k in ix.nokeys)
    {
      assert c in OfType(ix.clients, ix.clients[c].btype);
      EntryThere(ix, c, k);
    }
  }

  /** Client `c` waits for nothing any more; the waiters before and behind it moved up. */
  ghost predicate Freed(before: Index, after: Index, c: nat) {
    && c in before.clients && c in after.clients && after.clients == before.clients[c := after.clients[c]]
    && after.clients[c].btype == NONE && after.clients[c].keys == map[] && !after.clients[c].nokey
    && (forall k :: WaitersOf(after, k) == Others(WaitersOf(before, k), c))
  }

  lemma LeftClient(before: Index, after: Index, c: nat)
    requires AllLeft(before, after, c)
    ensures c in before.clients && after.clients == before.clients[c := before.clients[c].(keys := map[])]
  {
  }

  lemma FreedBy(before: Index, ix: Index, c: nat, cl: Client)
    requires AllLeft(before, ix, c) && cl.btype == NONE && cl.keys == map[] && !cl.nokey
    ensures Freed(before, ix.(clients := ix.clients[c := cl]), c)
  {
    assert ix.clients[c := cl] == before.clients[c := cl];
    assert forall k :: WaitersOf(ix.(clients := ix.clients[c := cl]), k) == WaitersOf(ix, k);
  }

  lemma FreedSame(first: Index, before: Index, after: Index, c: nat)
    requires Freed(before, after, c) && c in first.clients && before.waiters == first.waiters
    requires before.clients == first.clients[c := before.clients[c]]
    ensures Freed(first, after, c)
  {
    assert forall k :: WaitersOf(first, k) == WaitersOf(before, k);
  }

  lemma OldType(clients: map<nat, Client>, byType: map<BType, nat>, c: nat, cl: Client)
    requires CountersOk(clients, byType) && c in clients && clients[c].btype != NONE && cl.btype == NONE
    ensures clients[c].btype in byType && byType[clients[c].btype] > 0
    ensures CountersOk(clients[c := cl], byType[clients[c].btype := byType[clients[c].btype] - 1])
  {
    TypeChanges(clients, byType, c, cl);
  }

  function Restrict(m: map<Key, nat>, rest: set<Key>): map<Key, nat> { map k | k in m && k in rest :: m[k] }

  lemma RestrictLess(m: map<Key, nat>, rest: set<Key>, k: Key)
    ensures Restrict(m, rest) - {k} == Restrict(m, rest - {k})
    ensures Restrict(m, {}) == map[] && Restrict(m, m.Keys) == m
  {
  }

  ghost predicate LeftClients(before: Index, after: Index, rest: set<Key>, c: nat) {
    && c in before.clients && rest <= before.clients[c].keys.Keys
    && after.clients == before.clients[c := before.clients[c].(keys := Restrict(before.clients[c].keys, rest))]
  }

  ghost predicate LeftLists(before: Index, after: Index, gone: set<Key>, c: nat) {
    forall k :: WaitersOf(after, k) == if k in gone then Others(WaitersOf(before, k), c) else WaitersOf(before, k)
  }

  /** Client `c` left every list but those of `rest`. */
  ghost predicate Left(before: Index, after: Index, rest: set<Key>, c: nat) {
    LeftClients(before, after, rest, c) && LeftLists(before, after, before.clients[c].keys.Keys - rest, c)
  }

  /** Client `c` left every list; the others kept their order, and nothing else changed. */
  ghost predicate AllLeft(before: Index, after: Index, c: nat) {
    && c in before.clients && after.clients == before.clients[c := before.clients[c].(keys := map[])]
    && (forall k :: WaitersOf(after, k) == Others(WaitersOf(before, k), c))
  }

  lemma LeftNone(ix: Index, c: nat)
    requires c in ix.clients
    ensures Left(ix, ix, ix.clients[c].keys.Keys, c)
  {
    RestrictLess(ix.clients[c].keys, {}, (0, ""));
    assert ix.clients == ix.clients[c := ix.clients[c]];
  }

  lemma LeftKeys(before: Index, ix: Index, rest: set<Key>, c: nat)
    requires Left(before, ix, rest, c)
    ensures c in before.clients && c in ix.clients && ix.clients[c].keys.Keys == rest <= before.clients[c].keys.Keys
    ensures ix.clients[c].nokey == before.clients[c].nokey
    ensures forall k | k in rest :: ix.clients[c].keys[k] == before.clients[c].keys[k]
    ensures rest == {} ==> ix.clients == before.clients[c := before.clients[c].(keys := map[])]
  {
    RestrictLess(before.clients[c].keys, {}, (0, ""));
  }

  lemma LeftListsMore(before: Index, ix: Index, gone: set<Key>, c: nat, k: Key)
    requires Consistent(ix) && c in ix.clients && k in ix.clients[c].keys && k in ix.waiters
    requires LeftLists(before, ix, gone, c) && k !in gone
    ensures LeftLists(before, Leave(ix, c, k), gone + {k}, c)
  {
    hide Consistent, WaitersOf, Leave;
    forall q
      ensures WaitersOf(Leave(ix, c, k), q) == if q in gone + {k} then Others(WaitersOf(before, q), c) else WaitersOf(before, q)
    {
      LeaveWaiting(ix, c, k, q);
    }
  }

  lemma LeftMore(before: Index, ix: Index, rest: set<Key>, c: nat, k: Key)
    requires Consistent(ix) && Left(before, ix, rest, c) && k in rest
    ensures c in ix.clients && k in ix.clients[c].keys && k in ix.waiters && Left(before, Leave(ix, c, k), rest - {k}, c)
  {
    hide Consistent, Leave, LeftLists;
    LeftKeys(before, ix, rest, c);
    LeaveKeeps(ix, c, k);
    LeaveClients(ix, c, k);
    var keys := before.clients[c].keys;
    RestrictLess(keys, rest, k);
    LeftListsMore(before, ix, keys.Keys - rest, c, k);
    assert keys.Keys - rest + {k} == keys.Keys - (rest - {k});
  }

  lemma LeaveClients(ix: Index, c: nat, k: Key)
    requires c in ix.clients && k in ix.clients[c].keys && k in ix.waiters
    ensures Leave(ix, c, k).clients == ix.clients[c := ix.clients[c].(keys := ix.clients[c].keys - {k})]
  {
  }

  lemma LeftAll(before: Index, ix: Index, c: nat)
    requires Consistent(before) && Left(before, ix, {}, c)
    ensures AllLeft(before, ix, c)
  {
    LeftKeys(before, ix, {}, c);
    assert before.clients[c].keys.Keys - {} == before.clients[c].keys.Keys;
    forall k
      ensures WaitersOf(ix, k) == Others(WaitersOf(before, k), c)
    {
      NotWaiting(before, c, k);
    }
  }

  lemma NotWaiting(ix: Index, c: nat, k: Key)
    requires Consistent(ix) && c in ix.clients
    ensures k !in ix.clients[c].keys ==> Others(WaitersOf(ix, k), c) == WaitersOf(ix, k)
  {
    ExactlyOnce(ix, c, k);
    if k !in ix.clients[c].keys {
      NotThere(WaitersOf(ix, k), c);
    }
  }

  lemma LeftNothing(ix: Index, c: nat)
    requires Consistent(ix) && c in ix.clients && ix.clients[c].keys == map[]
    ensures AllLeft(ix, ix, c)
  {
    assert ix.clients == ix.clients[c := ix.clients[c].(keys := map[])];
    forall k
      ensures WaitersOf(ix, k) == Others(WaitersOf(ix, k), c)
    {
      NotWaiting(ix, c, k);
    }
  }

  /** What the assertions of `releaseBlockedEntry` demand. */
  lemma EntryThere(ix: Index, c: nat, k: Key)
    requires Consistent(ix) && c in ix.clients && k in ix.clients[c].keys
    ensures k in ix.waiters && (ix.clients[c].nokey ==> k in ix.nokeys && ix.nokeys[k] >= 1)
  {
    var i := Place(ix, c, k);
    assert CountOk(ix, k);
    CountRemoved(ix.clients, ix.waiters[k], i);
  }

  lemma LeaveTables(ix: Index, g: Index, c: nat, k: Key)
    requires c in ix.clients && c in g.clients && ix.waiters == g.waiters && ix.nokeys == g.nokeys && k in ix.waiters
    requires k in ix.clients[c].keys && k in g.clients[c].keys && ix.clients[c].keys[k] == g.clients[c].keys[k]
    requires ix.clients[c].nokey == g.clients[c].nokey
    ensures Leave(ix, c, k).waiters == Leave(g, c, k).waiters && Leave(ix, c, k).nokeys == Leave(g, c, k).nokeys
  {
  }

  lemma {:induction false} UnlinkPart(list: seq<Waiter>, node: nat)
    ensures forall w | w in Unlink(list, node) :: w in list
  {
    if list != [] {
      UnlinkPart(list[1..], node);
    }
  }

  lemma NodesLeft(ix: Index, c: nat, k: Key, n: nat)
    requires c in ix.clients && k in ix.clients[c].keys && k in ix.waiters && NodesBelow(ix.waiters, n)
    ensures NodesBelow(Leave(ix, c, k).waiters, n)
  {
    UnlinkPart(ix.waiters[k], ix.clients[c].keys[k]);
  }

  lemma NextKey(keys: seq<Key>, j: nat)
    requires j < |keys|
    ensures KeySet(keys[..j + 1]) == KeySet(keys[..j]) + {keys[j]}
    ensures keys[j] in KeySet(keys[..j]) ==> KeySet(keys[..j + 1]) == KeySet(keys[..j])
  {
    assert keys[..j + 1] == keys[..j] + [keys[j]];
  }

  lemma FreshNode(ix: Index, n: nat, k: Key)
    requires NodesBelow(ix.waiters, n)
    ensures Fresh(ix, k, n) && forall c | c in ix.clients :: NodesBelow(Join(ix, c, k, n).waiters, n + 1)
  {
  }

  function KeySet(keys: seq<Key>): set<Key> { set k | k in keys }

  /** Client `c`, which waited for nothing, was put at the end of exactly the lists of
      these keys; no other client and no other list changed. */
  ghost predicate Joined(before: Index, after: Index, keys: set<Key>, c: nat) {
    && c in before.clients && c in after.clients && after.clients == before.clients[c := after.clients[c]]
    && after.clients[c].keys.Keys == keys
    && after.clients[c] == before.clients[c].(keys := after.clients[c].keys, btype := after.clients[c].btype,
         nokey := after.clients[c].nokey, pending := after.clients[c].pending)
    && (forall k :: WaitersOf(after, k) == WaitersOf(before, k) + if k in keys then [Waiter(after.clients[c].keys[k], c)] else [])
  }

  lemma JoinedNone(ix: Index, c: nat)
    requires c in ix.clients && ix.clients[c].keys == map[]
    ensures Joined(ix, ix, KeySet([]), c)
  {
    assert ix.clients == ix.clients[c := ix.clients[c]];
    assert KeySet([]) == {};
  }

  lemma JoinedKeys(before: Index, after: Index, keys: set<Key>, c: nat)
    requires Joined(before, after, keys, c)
    ensures c in before.clients && c in after.clients && after.clients[c].keys.Keys == keys
    ensures after.clients == before.clients[c := after.clients[c]]
  {
  }

  lemma JoinedMore(before: Index, ix: Index, keys: set<Key>, c: nat, k: Key, node: nat)
    requires Joined(before, ix, keys, c) && k !in keys
    ensures c in ix.clients && Joined(before, Join(ix, c, k, node), keys + {k}, c)
  {
    var after := Join(ix, c, k, node);
    assert after.clients == before.clients[c := after.clients[c]];
  }

  /** The client's own fields are set before and after the loop. */
  lemma JoinedAround(first: Index, before: Index, after: Index, keys: set<Key>, c: nat, cl: Client)
    requires Joined(before, after, keys, c) && c in first.clients
    requires before == first.(clients := first.clients[c := first.clients[c].(nokey := cl.nokey)])
    requires cl == after.clients[c].(btype := cl.btype, pending := cl.pending)
    ensures Joined(first, after.(clients := after.clients[c := cl]), keys, c)
  {
    var last := after.(clients := after.clients[c := cl]);
    assert forall q :: WaitersOf(last, q) == WaitersOf(after, q) && WaitersOf(first, q) == WaitersOf(before, q);
    assert last.clients == first.clients[c := cl];
  }

  lemma NewType(clients: map<nat, Client>, byType: map<BType, nat>, c: nat, cl: Client)
    requires CountersOk(clients, byType) && c in clients && clients[c].btype == NONE && cl.btype != NONE
    ensures cl.btype in byType && CountersOk(clients[c := cl], byType[cl.btype := byType[cl.btype] + 1])
  {
    TypeChanges(clients, byType, c, cl);
  }

  /** Fields other than keys and nokey do not matter to the index. */
  lemma SameKeys(ix: Index, c: nat, cl: Client)
    requires Consistent(ix) && c in ix.clients && cl.keys == ix.clients[c].keys && cl.nokey == ix.clients[c].nokey
    ensures Consistent(ix.(clients := ix.clients[c := cl]))
  {
    var after := ix.(clients := ix.clients[c := cl]);
    forall k, w | k in ix.waiters && w in ix.waiters[k]
      ensures Known(after, k, w)
    {
      assert Known(ix, k, w);
    }
    forall k
      ensures CountOk(after, k)
    {
      assert CountOk(ix, k);
      CountSame(ix.clients, after.clients, WaitersOf(ix, k));
    }
  }
}
