/** The two-pass merge of read and write events in `aeApiPoll` over a table that packs
    the masks of four descriptors into each byte (ae_kqueue.c). */
module Kqueue {

  // ---------------------------------------------------------------------
  // The packed table

  /** The two mask bits of slot `k` of a byte: `(b >> (k * 2)) & 0x3`. */
  function SlotGet(b: bv8, k: nat): bv8
    requires k < 4
  {
    if k == 0 then b & 3 else if k == 1 then (b >> 2) & 3 else if k == 2 then (b >> 4) & 3 else (b >> 6) & 3
  }

  /** `(mask & 0x3) << (k * 2)` */
  function Encode(mask: bv8, k: nat): bv8
    requires k < 4
  {
    var m := mask & 3;
    if k == 0 then m else if k == 1 then m << 2 else if k == 2 then m << 4 else m << 6
  }

  function SlotAdd(b: bv8, k: nat, mask: bv8): bv8
    requires k < 4
  {
    b | Encode(mask, k)
  }

  function SlotReset(b: bv8, k: nat): bv8
    requires k < 4
  {
    b & !Encode(3, k)
  }

  lemma AddTouchesOneSlot(b: bv8, k: nat, mask: bv8, i: nat)
    requires k < 4 && i < 4 && mask & 3 == mask
    ensures SlotGet(SlotAdd(b, k, mask), i) == if i == k then SlotGet(b, i) | mask else SlotGet(b, i)
  {
  }

  lemma ResetTouchesOneSlot(b: bv8, k: nat, i: nat)
    requires k < 4 && i < 4
    ensures SlotGet(SlotReset(b, k), i) == if i == k then 0 else SlotGet(b, i)
  {
  }

  /** The mask stored for a descriptor. */
  function MaskOf(table: seq<bv8>, fd: nat): bv8
    requires fd / 4 < |table|
  {
    SlotGet(table[fd / 4], fd % 4)
  }

  method AddEventMask(eventsMask: array<bv8>, fd: nat, mask: bv8)
    requires fd / 4 < eventsMask.Length && mask & 3 == mask
    modifies eventsMask
    ensures forall f: nat | f / 4 < eventsMask.Length ::
      MaskOf(eventsMask[..], f) == if f == fd then old(MaskOf(eventsMask[..], f)) | mask else old(MaskOf(eventsMask[..], f))
  {
    hide SlotGet, SlotAdd;
    ghost var was := eventsMask[fd / 4];
    eventsMask[fd / 4] := SlotAdd(eventsMask[fd / 4], fd % 4, mask);
    forall i: nat | i < 4
      ensures SlotGet(eventsMask[fd / 4], i) == if i == fd % 4 then SlotGet(was, i) | mask else SlotGet(was, i)
    {
      AddTouchesOneSlot(was, fd % 4, mask, i);
    }
  }

  method ResetEventMask(eventsMask: array<bv8>, fd: nat)
    requires fd / 4 < eventsMask.Length
    modifies eventsMask
    ensures forall f: nat | f / 4 < eventsMask.Length ::
      MaskOf(eventsMask[..], f) == if f == fd then 0 else old(MaskOf(eventsMask[..], f))
  {
    hide SlotGet, SlotReset;
    ghost var was := eventsMask[fd / 4];
    eventsMask[fd / 4] := SlotReset(eventsMask[fd / 4], fd % 4);
    forall i: nat | i < 4
      ensures SlotGet(eventsMask[fd / 4], i) == if i == fd % 4 then 0 else SlotGet(was, i)
    {
      ResetTouchesOneSlot(was, fd % 4, i);
    }
  }

  // ---------------------------------------------------------------------
  // What the merge should report

  datatype Filter = Read | Write | Other
  datatype Kevent = Kevent(fd: nat, filter: Filter)
  datatype Fired = Fired(fd: nat, mask: bv8)

  const AE_READABLE: bv8 := 1
  const AE_WRITABLE: bv8 := 2

  function EventMask(e: Kevent): bv8 {
    match e.filter
    case Read => AE_READABLE
    case Write => AE_WRITABLE
    case Other => 0
  }

  /** The union of the masks reported for `fd` by the first `n` events. */
  function Union(events: seq<Kevent>, fd: nat, n: nat): bv8
    requires n <= |events|
  {
    if n == 0 then 0
    else if events[n - 1].fd == fd then Union(events, fd, n - 1) | EventMask(events[n - 1])
    else Union(events, fd, n - 1)
  }

  predicate Mentioned(events: seq<Kevent>, fd: nat, n: nat)
    requires n <= |events|
  {
    exists i | 0 <= i < n :: events[i].fd == fd
  }

  /** The reports for the descriptors first mentioned among the first `n` events. */
  function Merged(events: seq<Kevent>, n: nat): seq<Fired>
    requires n <= |events|
  {
    if n == 0 then []
    else
      var fd := events[n - 1].fd;
      var all := Union(events, fd, |events|);
      if Mentioned(events, fd, n - 1) || all == 0 then Merged(events, n - 1)
      else Merged(events, n - 1) + [Fired(fd, all)]
  }

  /** Where a descriptor is first mentioned. */
  ghost function FirstAt(events: seq<Kevent>, fd: nat, n: nat): (i: nat)
    requires n <= |events| && Mentioned(events, fd, n)
    ensures i < n && events[i].fd == fd && !Mentioned(events, fd, i)
  {
    if Mentioned(events, fd, n - 1) then FirstAt(events, fd, n - 1) else n - 1
  }

  /** Each reported descriptor was mentioned and carries the union of its masks. */
  ghost predicate Sound(events: seq<Kevent>, n: nat, out: seq<Fired>)
    requires n <= |events|
  {
    forall k | 0 <= k < |out| ::
      Mentioned(events, out[k].fd, n) && out[k].mask == Union(events, out[k].fd, |events|) && out[k].mask != 0
  }

  /** Every mentioned descriptor with a read or write event is reported. */
  ghost predicate Complete(events: seq<Kevent>, n: nat, out: seq<Fired>)
    requires n <= |events|
  {
    forall i | 0 <= i < n && Union(events, events[i].fd, |events|) != 0 ::
      Fired(events[i].fd, Union(events, events[i].fd, |events|)) in out
  }

  /** Reports come in the order of first mention, hence each descriptor at most once. */
  ghost predicate Ordered(events: seq<Kevent>, n: nat, out: seq<Fired>)
    requires n <= |events| && Sound(events, n, out)
  {
    forall k, l | 0 <= k < l < |out| :: FirstAt(events, out[k].fd, n) < FirstAt(events, out[l].fd, n)
  }

  lemma {:induction false} MergedIsExact(events: seq<Kevent>, n: nat)
    requires n <= |events|
    ensures Sound(events, n, Merged(events, n))
    ensures Complete(events, n, Merged(events, n))
    ensures Ordered(events, n, Merged(events, n))
    ensures |Merged(events, n)| <= n
  {
    hide Union;
    if n > 0 {
      MergedIsExact(events, n - 1);
      var before, out := Merged(events, n - 1), Merged(events, n);
      var fd := events[n - 1].fd;
      assert forall k | 0 <= k < |before| :: Mentioned(events, before[k].fd, n);
      assert Sound(events, n, out);
      forall i | 0 <= i < n && Union(events, events[i].fd, |events|) != 0
        ensures Fired(events[i].fd, Union(events, events[i].fd, |events|)) in out
      {
        if i == n - 1 && Mentioned(events, fd, n - 1) {
          var m :| 0 <= m < n - 1 && events[m].fd == fd;
          assert Fired(events[m].fd, Union(events, events[m].fd, |events|)) in before;
        }
      }
      forall k, l | 0 <= k < l < |out| ensures FirstAt(events, out[k].fd, n) < FirstAt(events, out[l].fd, n) {
        assert out[k] == before[k];
        if l < |before| { assert out[l] == before[l]; }
      }
    }
  }

  /** Nothing is reported twice. */
  lemma ReportedOnce(events: seq<Kevent>, k: nat, l: nat)
    requires k < l < |Merged(events, |events|)|
    ensures Merged(events, |events|)[k].fd != Merged(events, |events|)[l].fd
  {
    hide Merged, Union;
    MergedIsExact(events, |events|);
    assert FirstAt(events, Merged(events, |events|)[k].fd, |events|) < FirstAt(events, Merged(events, |events|)[l].fd, |events|);
  }

  // ---------------------------------------------------------------------
  // The two passes

  ghost predicate AllZero(table: seq<bv8>) {
    forall f: nat | f / 4 < |table| :: MaskOf(table, f) == 0
  }

  /** First pass: store the union of the masks of every descriptor. */
  method CollectMasks(eventsMask: array<bv8>, events: seq<Kevent>)
    requires AllZero(eventsMask[..])
    requires forall e | e in events :: e.fd / 4 < eventsMask.Length
    modifies eventsMask
    ensures forall f: nat | f / 4 < eventsMask.Length :: MaskOf(eventsMask[..], f) == Union(events, f, |events|)
  {
    hide MaskOf;
    for j := 0 to |events|
      invariant forall f: nat | f / 4 < eventsMask.Length :: MaskOf(eventsMask[..], f) == Union(events, f, j)
    {
      AddEventMask(eventsMask, events[j].fd, EventMask(events[j]));
    }
  }

  /** Second pass: report each stored mask once, clearing it on the way. */
  method ReportMasks(eventsMask: array<bv8>, events: seq<Kevent>, fired: array<Fired>) returns (numevents: nat)
    requires forall e | e in events :: e.fd / 4 < eventsMask.Length
    requires forall f: nat | f / 4 < eventsMask.Length :: MaskOf(eventsMask[..], f) == Union(events, f, |events|)
    requires |events| <= fired.Length && eventsMask as object != fired as object
    modifies eventsMask, fired
    ensures numevents <= fired.Length && fired[..numevents] == Merged(events, |events|)
    ensures AllZero(eventsMask[..])
  {
    NothingMentioned(events);
    hide MaskOf, Mentioned, Merged, Union;
    numevents := 0;
    for j := 0 to |events|
      invariant numevents <= j && fired[..numevents] == Merged(events, j)
      invariant forall f: nat | f / 4 < eventsMask.Length ::
        MaskOf(eventsMask[..], f) == if Mentioned(events, f, j) then 0 else Union(events, f, |events|)
    {
      var fd := events[j].fd;
      var mask := MaskOf(eventsMask[..], fd);
      MergedStep(events, j, mask);
      MentionedStep(events, j);
      ghost var table, reported := eventsMask[..], fired[..numevents];
      if mask != 0 {
        fired[numevents] := Fired(fd, mask);
        assert eventsMask[..] == table && fired[..numevents + 1] == reported + [Fired(fd, mask)];
        ResetEventMask(eventsMask, fd);
        numevents := numevents + 1;
      }
    }
    Unmentioned(events);
  }

  /** The merging part of `aeApiPoll`: given an all-zero mask table, the fired array
      receives the merged reports and the table is all zero again. */
  method MergeEvents(eventsMask: array<bv8>, events: seq<Kevent>, fired: array<Fired>) returns (numevents: nat)
    requires AllZero(eventsMask[..])
    requires forall e | e in events :: e.fd / 4 < eventsMask.Length
    requires |events| <= fired.Length && eventsMask as object != fired as object
    modifies eventsMask, fired
    ensures numevents <= fired.Length && fired[..numevents] == Merged(events, |events|)
    ensures AllZero(eventsMask[..])
  {
    hide MaskOf, Merged, Union;
    CollectMasks(eventsMask, events);
    numevents := ReportMasks(eventsMask, events, fired);
  }

  lemma NothingMentioned(events: seq<Kevent>)
    ensures forall f: nat :: !Mentioned(events, f, 0)
    ensures Merged(events, 0) == []
  {
  }

  lemma MergedStep(events: seq<Kevent>, j: nat, mask: bv8)
    requires j < |events|
    requires mask == if Mentioned(events, events[j].fd, j) then 0 else Union(events, events[j].fd, |events|)
    ensures Merged(events, j + 1) == Merged(events, j) + if mask == 0 then [] else [Fired(events[j].fd, mask)]
  {
    hide Union;
  }

  lemma MentionedStep(events: seq<Kevent>, j: nat)
    requires j < |events|
    ensures forall f: nat :: Mentioned(events, f, j + 1) <==> Mentioned(events, f, j) || f == events[j].fd
  {
    forall f: nat ensures Mentioned(events, f, j + 1) <==> Mentioned(events, f, j) || f == events[j].fd {
      if f == events[j].fd { assert events[j].fd == f; }
    }
  }

  lemma {:induction false} UnmentionedUpTo(events: seq<Kevent>, f: nat, n: nat)
    requires n <= |events| && !Mentioned(events, f, n)
    ensures Union(events, f, n) == 0
  {
    if n > 0 {
      assert events[n - 1].fd != f;
      assert !Mentioned(events, f, n - 1);
      UnmentionedUpTo(events, f, n - 1);
    }
  }

  lemma Unmentioned(events: seq<Kevent>)
    ensures forall f: nat | !Mentioned(events, f, |events|) :: Union(events, f, |events|) == 0
  {
    forall f: nat | !Mentioned(events, f, |events|) ensures Union(events, f, |events|) == 0 {
      UnmentionedUpTo(events, f, |events|);
    }
  }
}
