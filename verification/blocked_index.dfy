/** The tables of clients blocked on keys (blocked.c): client to keys, key to clients, and
    the count of clients to wake when a key is deleted. */
module BlockedIndex {
  import opened Base

  /** A key in a database. */
  type Key = (nat, string)

  datatype BType = NONE | LIST | ZSET | STREAM | MODULE

  /** The blocking state of a client: for every key it waits on, its node in the waiter
      list of the key. */
  datatype Client = Client(btype: BType, keys: map<Key, nat>, nokey: bool, pending: bool, queued: bool)

  /** A node of a waiter list. */
  datatype Waiter = Waiter(node: nat, client: nat)

  datatype Index = Index(clients: map<nat, Client>, waiters: map<Key, seq<Waiter>>, nokeys: map<Key, nat>)

  function WaitersOf(ix: Index, k: Key): seq<Waiter> { if k in ix.waiters then ix.waiters[k] else [] }

  predicate WantsNokey(clients: map<nat, Client>, w: Waiter) { w.client in clients && clients[w.client].nokey }

  function Count(clients: map<nat, Client>, list: seq<Waiter>): nat {
    if list == [] then 0 else Count(clients, list[..|list| - 1]) + if WantsNokey(clients, list[|list| - 1]) then 1 else 0
  }

  predicate UniqueNodes(list: seq<Waiter>) { forall i, j | 0 <= i < j < |list| :: list[i].node != list[j].node }

  /** A waiter's client has the key, with this very node. */
  predicate Known(ix: Index, k: Key, w: Waiter) {
    w.client in ix.clients && k in ix.clients[w.client].keys && ix.clients[w.client].keys[k] == w.node
  }

  ghost predicate ListsOk(ix: Index) {
    forall k | k in ix.waiters :: ix.waiters[k] != [] && UniqueNodes(ix.waiters[k])
  }

  ghost predicate WaitersKnown(ix: Index) { forall k, w | k in ix.waiters && w in ix.waiters[k] :: Known(ix, k, w) }

  ghost predicate KeysListed(ix: Index) {
    forall c, k | c in ix.clients && k in ix.clients[c].keys ::
      k in ix.waiters && Waiter(ix.clients[c].keys[k], c) in ix.waiters[k]
  }

  /** The entry is the number of waiters that asked for it, and is absent at zero. */
  predicate CountOk(ix: Index, k: Key) {
    var n := Count(ix.clients, WaitersOf(ix, k));
    if n == 0 then k !in ix.nokeys else k in ix.nokeys && ix.nokeys[k] == n
  }

  ghost predicate CountsOk(ix: Index) { forall k :: CountOk(ix, k) }

  ghost predicate Consistent(ix: Index) { ListsOk(ix) && WaitersKnown(ix) && KeysListed(ix) && CountsOk(ix) }

  /** In a consistent index a client is in the waiter list of a key exactly once if the key
      is in its own table, at the node stored there, and not at all otherwise. */
  lemma ExactlyOnce(ix: Index, c: nat, k: Key)
    requires Consistent(ix) && c in ix.clients
    ensures k in ix.clients[c].keys <==> exists i :: 0 <= i < |WaitersOf(ix, k)| && WaitersOf(ix, k)[i].client == c
    ensures forall i, j | 0 <= i < |WaitersOf(ix, k)| && 0 <= j < |WaitersOf(ix, k)|
      && WaitersOf(ix, k)[i].client == c && WaitersOf(ix, k)[j].client == c :: i == j
    ensures forall i | 0 <= i < |WaitersOf(ix, k)| && WaitersOf(ix, k)[i].client == c ::
      k in ix.clients[c].keys && ix.clients[c].keys[k] == WaitersOf(ix, k)[i].node
  {
    var list := WaitersOf(ix, k);
    forall i | 0 <= i < |list|
      ensures Known(ix, k, list[i])
    {
      assert list[i] in ix.waiters[k];
    }
    if k in ix.clients[c].keys {
      var i :| 0 <= i < |list| && list[i] == Waiter(ix.clients[c].keys[k], c);
    }
    forall i, j | 0 <= i < |list| && 0 <= j < |list| && list[i].client == c && list[j].client == c
      ensures i == j
    {
      assert list[i].node == list[j].node;
    }
  }

  // ---------------------------------------------------------------------
  // Counting

  lemma {:induction false} CountAppend(clients: map<nat, Client>, a: seq<Waiter>, b: seq<Waiter>)
    ensures Count(clients, a + b) == Count(clients, a) + Count(clients, b)
  {
    if b == [] {
      assert a + b == a;
    } else {
      var pre := b[..|b| - 1];
      assert (a + b)[..|a + b| - 1] == a + pre;
      CountAppend(clients, a, pre);
    }
  }

  lemma {:induction false} CountSame(before: map<nat, Client>, after: map<nat, Client>, list: seq<Waiter>)
    requires forall w | w in list :: WantsNokey(before, w) == WantsNokey(after, w)
    ensures Count(before, list) == Count(after, list)
  {
    if list != [] {
      assert list[|list| - 1] in list;
      CountSame(before, after, list[..|list| - 1]);
    }
  }

  // ---------------------------------------------------------------------
  // Joining and leaving a waiter list

  /** Client `c` goes to the end of the waiter list of `k`, in node `node`. */
  function Join(ix: Index, c: nat, k: Key, node: nat): Index
    requires c in ix.clients
  {
    var cl := ix.clients[c];
    Index(ix.clients[c := cl.(keys := cl.keys[k := node])],
          ix.waiters[k := WaitersOf(ix, k) + [Waiter(node, c)]],
          if !cl.nokey then ix.nokeys
          else ix.nokeys[k := if k in ix.nokeys then ix.nokeys[k] + 1 else 1])
  }

  predicate Fresh(ix: Index, k: Key, node: nat) { forall w | w in WaitersOf(ix, k) :: w.node != node }

  lemma JoinLists(ix: Index, c: nat, k: Key, node: nat)
    requires ListsOk(ix) && c in ix.clients && Fresh(ix, k, node)
    ensures ListsOk(Join(ix, c, k, node))
  {
    var list := WaitersOf(ix, k);
    assert forall i | 0 <= i < |list| :: list[i] in list;
  }

  lemma JoinKnown(ix: Index, c: nat, k: Key, node: nat)
    requires WaitersKnown(ix) && c in ix.clients && k !in ix.clients[c].keys
    ensures WaitersKnown(Join(ix, c, k, node))
  {
    var after := Join(ix, c, k, node);
    forall q, w | q in after.waiters && w in after.waiters[q]
      ensures Known(after, q, w)
    {
      if w != Waiter(node, c) || q != k {
        assert w in WaitersOf(ix, q);
        assert q in ix.waiters;
        assert Known(ix, q, w);
      }
    }
  }

  lemma JoinListed(ix: Index, c: nat, k: Key, node: nat)
    requires KeysListed(ix) && c in ix.clients && k !in ix.clients[c].keys
    ensures KeysListed(Join(ix, c, k, node))
  {
    var after := Join(ix, c, k, node);
    forall d, q | d in after.clients && q in after.clients[d].keys
      ensures q in after.waiters && Waiter(after.clients[d].keys[q], d) in after.waiters[q]
    {
      if d == c && q == k {
        assert after.waiters[k][|WaitersOf(ix, k)|] == Waiter(node, c);
      } else {
        assert q in ix.clients[d].keys && after.clients[d].keys[q] == ix.clients[d].keys[q];
        var w := Waiter(ix.clients[d].keys[q], d);
        var i :| 0 <= i < |ix.waiters[q]| && ix.waiters[q][i] == w;
        assert after.waiters[q][i] == w;
      }
    }
  }

  lemma JoinCounts(ix: Index, c: nat, k: Key, node: nat)
    requires CountsOk(ix) && c in ix.clients
    ensures CountsOk(Join(ix, c, k, node))
  {
    var after := Join(ix, c, k, node);
    forall q
      ensures CountOk(after, q)
    {
      assert CountOk(ix, q);
      CountSame(ix.clients, after.clients, WaitersOf(ix, q));
      if q == k {
        CountAppend(after.clients, WaitersOf(ix, k), [Waiter(node, c)]);
        assert [Waiter(node, c)][..0] == [];
        assert Count(after.clients, [Waiter(node, c)]) == if ix.clients[c].nokey then 1 else 0;
      }
    }
  }

  lemma JoinKeeps(ix: Index, c: nat, k: Key, node: nat)
    requires Consistent(ix) && c in ix.clients && k !in ix.clients[c].keys && Fresh(ix, k, node)
    ensures Consistent(Join(ix, c, k, node))
  {
    hide ListsOk, WaitersKnown, KeysListed, CountsOk;
    JoinLists(ix, c, k, node);
    JoinKnown(ix, c, k, node);
    JoinListed(ix, c, k, node);
    JoinCounts(ix, c, k, node);
  }

  /** `listUnlinkNode`. */
  function Unlink(list: seq<Waiter>, node: nat): seq<Waiter> {
    if list == [] then [] else if list[0].node == node then list[1..] else [list[0]] + Unlink(list[1..], node)
  }

  lemma {:induction false} UnlinkAt(list: seq<Waiter>, i: nat)
    requires UniqueNodes(list) && i < |list|
    ensures Unlink(list, list[i].node) == list[..i] + list[i + 1..]
  {
    if i > 0 {
      UnlinkAt(list[1..], i - 1);
      assert list[..i] + list[i + 1..] == [list[0]] + (list[1..][..i - 1] + list[1..][i..]);
    }
  }

  /** Client `c` gives up its place in the waiter list of `k`. */
  function Leave(ix: Index, c: nat, k: Key): Index
    requires c in ix.clients && k in ix.clients[c].keys && k in ix.waiters
  {
    var cl := ix.clients[c];
    var list := Unlink(ix.waiters[k], cl.keys[k]);
    Index(ix.clients[c := cl.(keys := cl.keys - {k})],
          if list == [] then ix.waiters - {k} else ix.waiters[k := list],
          if list == [] || (cl.nokey && k in ix.nokeys && ix.nokeys[k] <= 1) then ix.nokeys - {k}
          else if cl.nokey && k in ix.nokeys then ix.nokeys[k := ix.nokeys[k] - 1]
          else ix.nokeys)
  }

  /** Where the client is in the list. */
  lemma Place(ix: Index, c: nat, k: Key) returns (i: nat)
    requires Consistent(ix) && c in ix.clients && k in ix.clients[c].keys
    ensures k in ix.waiters && i < |ix.waiters[k]| && ix.waiters[k][i] == Waiter(ix.clients[c].keys[k], c)
    ensures Unlink(ix.waiters[k], ix.clients[c].keys[k]) == ix.waiters[k][..i] + ix.waiters[k][i + 1..]
    ensures forall j | 0 <= j < |ix.waiters[k]| && j != i :: ix.waiters[k][j].client != c
  {
    var list := ix.waiters[k];
    i :| 0 <= i < |list| && list[i] == Waiter(ix.clients[c].keys[k], c);
    UnlinkAt(list, i);
    ExactlyOnce(ix, c, k);
    assert WaitersOf(ix, k) == list;
  }

  lemma LeaveLists(ix: Index, c: nat, k: Key)
    requires Consistent(ix) && c in ix.clients && k in ix.clients[c].keys
    ensures k in ix.waiters && ListsOk(Leave(ix, c, k))
  {
    var i := Place(ix, c, k);
    hide Unlink, WaitersKnown, KeysListed, CountsOk;
  }

  lemma LeaveKnown(ix: Index, c: nat, k: Key)
    requires Consistent(ix) && c in ix.clients && k in ix.clients[c].keys
    ensures k in ix.waiters && WaitersKnown(Leave(ix, c, k))
  {
    var i := Place(ix, c, k);
    var after := Leave(ix, c, k);
    hide Unlink, KeysListed, CountsOk;
    forall q, w | q in after.waiters && w in after.waiters[q]
      ensures Known(after, q, w)
    {
      if q == k {
        var j :| 0 <= j < |after.waiters[k]| && after.waiters[k][j] == w;
        assert w == ix.waiters[k][if j < i then j else j + 1];
        assert w in ix.waiters[k] && w.client != c;
      }
      assert Known(ix, q, w);
    }
  }

  lemma LeaveListed(ix: Index, c: nat, k: Key)
    requires Consistent(ix) && c in ix.clients && k in ix.clients[c].keys
    ensures k in ix.waiters && KeysListed(Leave(ix, c, k))
  {
    var i := Place(ix, c, k);
    var after := Leave(ix, c, k);
    hide Unlink, WaitersKnown, CountsOk;
    forall d, q | d in after.clients && q in after.clients[d].keys
      ensures q in after.waiters && Waiter(after.clients[d].keys[q], d) in after.waiters[q]
    {
      assert q in ix.clients[d].keys && after.clients[d].keys[q] == ix.clients[d].keys[q];
      var w := Waiter(ix.clients[d].keys[q], d);
      assert w in ix.waiters[q];
      if q == k {
        var j :| 0 <= j < |ix.waiters[k]| && ix.waiters[k][j] == w;
        var list := ix.waiters[k][..i] + ix.waiters[k][i + 1..];
        assert j != i;
        assert list[if j < i then j else j - 1] == w;
      }
    }
  }

  lemma CountRemoved(clients: map<nat, Client>, list: seq<Waiter>, i: nat)
    requires i < |list|
    ensures Count(clients, list) == Count(clients, list[..i] + list[i + 1..]) + if WantsNokey(clients, list[i]) then 1 else 0
  {
    var w := list[i];
    assert list == list[..i] + [w] + list[i + 1..];
    CountAppend(clients, list[..i] + [w], list[i + 1..]);
    CountAppend(clients, list[..i], [w]);
    CountAppend(clients, list[..i], list[i + 1..]);
    assert [w][..0] == [];
  }

  lemma LeaveCountHere(ix: Index, c: nat, k: Key)
    requires Consistent(ix) && c in ix.clients && k in ix.clients[c].keys && k in ix.waiters
    ensures CountOk(Leave(ix, c, k), k)
  {
    var i := Place(ix, c, k);
    var after := Leave(ix, c, k);
    assert CountOk(ix, k);
    hide Consistent, Unlink;
    var list := ix.waiters[k];
    var rest := list[..i] + list[i + 1..];
    CountRemoved(ix.clients, list, i);
    CountSame(ix.clients, after.clients, rest);
    hide Count;
    assert WantsNokey(ix.clients, list[i]) == ix.clients[c].nokey;
    assert rest == [] ==> Count(after.clients, []) == 0 by { NoneCounted(after.clients); }
    assert WaitersOf(after, k) == rest;
  }

  lemma NoneCounted(clients: map<nat, Client>)
    ensures Count(clients, []) == 0
  {
  }

  lemma LeaveCounts(ix: Index, c: nat, k: Key)
    requires Consistent(ix) && c in ix.clients && k in ix.clients[c].keys && k in ix.waiters
    ensures CountsOk(Leave(ix, c, k))
  {
    LeaveCountHere(ix, c, k);
    var after := Leave(ix, c, k);
    forall q | q != k
      ensures CountOk(after, q)
    {
      assert CountOk(ix, q);
      hide Consistent, Unlink, Count;
      CountSame(ix.clients, after.clients, WaitersOf(ix, q));
      assert WaitersOf(after, q) == WaitersOf(ix, q);
    }
  }

  lemma LeaveKeeps(ix: Index, c: nat, k: Key)
    requires Consistent(ix) && c in ix.clients && k in ix.clients[c].keys
    ensures k in ix.waiters && Consistent(Leave(ix, c, k))
  {
    LeaveLists(ix, c, k);
    LeaveKnown(ix, c, k);
    LeaveListed(ix, c, k);
    LeaveCounts(ix, c, k);
    hide ListsOk, WaitersKnown, KeysListed, CountsOk, Leave;
  }
}
