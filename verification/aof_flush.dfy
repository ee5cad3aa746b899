/** Writing the append-only buffer to its file (aof.c) through short writes, write errors,
    truncations and postponed writes: when exactly no byte is lost. */
module AofFlush {
  datatype Policy = NoSync | EverySec | Always

  /** The result of one write(2): interrupted, failed, or short by any amount. */
  datatype Attempt = Interrupted | Failed | Wrote(n: nat)

  /** What the outside does during one flush. The last write attempt after `writes`
      takes everything that is left. */
  datatype Env = Env(writes: seq<Attempt>, truncateOk: bool, fsyncOk: bool, syncing: bool, skipFsync: bool, now: nat)

  /** The open file with the kernel's file position, and the server's fields. */
  datatype State = State(
    file: string, offset: nat, append: bool,
    buf: string, incrSize: nat, currentSize: nat,
    policy: Policy, writeOk: bool, postponed: nat, fsyncOffset: nat, lastFsync: nat, exited: bool)

  function Min(a: nat, b: nat): nat { if a < b then a else b }

  function Nuls(n: nat): (s: string)
    ensures |s| == n && forall i | 0 <= i < n :: s[i] == '\0'
  {
    seq(n, _ => '\0')
  }

  // ---------------------------------------------------------------------
  // The file

  /** Where the next write goes. */
  function Position(s: State): nat { if s.append then |s.file| else s.offset }

  /** A write at or beyond the end of the file leaves a hole of zeros before it. */
  function WriteAt(s: State, data: string): State
    requires Position(s) >= |s.file|
  {
    var file := s.file + Nuls(Position(s) - |s.file|) + data;
    if data == "" then s else s.(file := file, offset := |file|)
  }

  function Truncate(s: State, size: nat): State {
    s.(file := if size <= |s.file| then s.file[..size] else s.file + Nuls(size - |s.file|))
  }

  /** How many of `len` bytes the attempts of `aofWrite` get to the file. */
  function Attempted(len: nat, writes: seq<Attempt>): (n: nat)
    ensures n <= len
    decreases |writes|
  {
    if len == 0 then 0
    else if writes == [] then len
    else match writes[0]
      case Interrupted => Attempted(len, writes[1..])
      case Failed => 0
      case Wrote(n) => Min(n, len) + Attempted(len - Min(n, len), writes[1..])
  }

  // ---------------------------------------------------------------------
  // One flush

  function TryFsync(s: State, sync: bool, env: Env): State {
    if env.skipFsync then s
    else if s.policy == Always then
      if env.fsyncOk then s.(fsyncOffset := s.incrSize, lastFsync := env.now) else s.(exited := true)
    else if s.policy == EverySec && env.now - s.lastFsync >= 1000 then
      s.(fsyncOffset := if sync then s.fsyncOffset else s.incrSize, lastFsync := env.now)
    else s
  }

  /** After the write attempts put `n` bytes of the buffer into the file. */
  function AfterWrite(s: State, n: nat, sync: bool, env: Env): State
    requires n <= |s.buf|
  {
    if n == |s.buf| then
      TryFsync(s.(writeOk := true, incrSize := s.incrSize + n, currentSize := s.currentSize + n, buf := ""), sync, env)
    else
      var t := if n > 0 && env.truncateOk then Truncate(s, s.incrSize) else s;
      var kept := if env.truncateOk then 0 else n;
      if s.policy == Always then t.(exited := true)
      else t.(writeOk := false, incrSize := s.incrSize + kept, currentSize := s.currentSize + kept, buf := s.buf[kept..])
  }

  predicate Postpone(s: State, force: bool, env: Env) {
    s.policy == EverySec && !force && env.syncing && (s.postponed == 0 || env.now - s.postponed < 2000)
  }

  /** `flushAppendOnlyFile`. */
  function Flush(s: State, force: bool, env: Env): State
    requires Position(s) >= |s.file|
  {
    if s.buf == "" then
      if s.fsyncOffset == s.incrSize then s
      else if s.policy == EverySec && env.now - s.lastFsync >= 1000 && !env.syncing then TryFsync(s, false, env)
      else if s.policy == Always then TryFsync(s, false, env)
      else s
    else if Postpone(s, force, env) then
      if s.postponed == 0 then s.(postponed := env.now) else s
    else
      var n := Attempted(|s.buf|, env.writes);
      AfterWrite(WriteAt(s, s.buf[..n]).(postponed := 0), n, s.policy == EverySec && env.syncing, env)
  }

  // ---------------------------------------------------------------------
  // The code

  lemma WriteTwice(s: State, a: string, b: string)
    requires Position(s) >= |s.file|
    ensures Position(WriteAt(s, a)) >= |WriteAt(s, a).file|
    ensures WriteAt(WriteAt(s, a), b) == WriteAt(s, a + b)
  {
    if a == "" {
      assert a + b == b;
    } else if b == "" {
      assert a + b == a;
    } else {
      var file := s.file + Nuls(Position(s) - |s.file|) + a;
      assert Nuls(0) == "";
      assert file + Nuls(0) + b == s.file + Nuls(Position(s) - |s.file|) + (a + b);
    }
  }

  class Server {
    var file: string
    var offset: nat
    var append: bool
    var buf: string
    var incrSize: nat
    var currentSize: nat
    var policy: Policy
    var writeOk: bool
    var postponed: nat
    var fsyncOffset: nat
    var lastFsync: nat
    var exited: bool

    function View(): State
      reads this
    {
      State(file, offset, append, buf, incrSize, currentSize, policy, writeOk, postponed, fsyncOffset, lastFsync, exited)
    }

    /** Opening an INCR file and starting to feed it. */
    constructor (file: string, append: bool, policy: Policy)
      ensures View() == State(file, if append then 0 else |file|, append, "", |file|, |file|, policy, true, 0, |file|, 0, false)
    {
      this.file, offset, this.append := file, if append then 0 else |file|, append;
      buf, incrSize, currentSize := "", |file|, |file|;
      this.policy, writeOk, postponed := policy, true, 0;
      fsyncOffset, lastFsync, exited := |file|, 0, false;
    }

    /** write(2) of `data`. */
    method Write(data: string)
      requires Position(View()) >= |file|
      modifies this`file, this`offset
      ensures View() == WriteAt(old(View()), data)
    {
      if data != "" {
        var at := if append then |file| else offset;
        file := file + Nuls(at - |file|) + data;
        offset := |file|;
      }
    }

    /** `aofWrite`: retry interrupted and short writes; -1 if an error came first. */
    method AofWrite(data: string, writes: seq<Attempt>) returns (nwritten: int)
      requires Position(View()) >= |file| && data != ""
      modifies this`file, this`offset
      ensures var n := Attempted(|data|, writes);
        View() == WriteAt(old(View()), data[..n]) && nwritten == if n == 0 then -1 else n
    {
      hide WriteAt;
      var rest, tot, i := data, 0, 0;
      ghost var first := View();
      WriteNothing(first);
      while rest != ""
        invariant i <= |writes| && 0 <= tot <= |data| && rest == data[tot..]
        invariant Position(View()) >= |file| && View() == WriteAt(first, data[..tot])
        invariant tot + Attempted(|rest|, writes[i..]) == Attempted(|data|, writes)
        decreases |rest|, |writes| - i
      {
        ghost var left := writes[i..];
        if i < |writes| {
          assert left[1..] == writes[i + 1..];
        }
        if i < |writes| && writes[i].Interrupted? {
          i := i + 1;
          continue;
        }
        if i < |writes| && writes[i].Failed? {
          return if tot > 0 then tot else -1;
        }
        var n: nat := if i < |writes| then Min(writes[i].n, |rest|) else |rest|;
        WriteTwice(first, data[..tot], rest[..n]);
        assert data[..tot] + rest[..n] == data[..tot + n];
        WriteTwice(first, data[..tot + n], "");
        Write(rest[..n]);
        rest, tot := rest[n..], tot + n;
        if i < |writes| { i := i + 1; }
      }
      return tot;
    }

    /** `flushAppendOnlyFile`. */
    method FlushAppendOnlyFile(force: bool, env: Env)
      requires Position(View()) >= |file|
      modifies this
      ensures View() == Flush(old(View()), force, env)
    {
      hide WriteAt, Attempted, AfterWrite, TryFsync;
      var sync := false;
      if |buf| == 0 {
        if fsyncOffset != incrSize {
          if policy == EverySec && env.now - lastFsync >= 1000 && !env.syncing {
            Fsync(false, env);
          } else if policy == Always {
            Fsync(false, env);
          }
        }
        return;
      }
      if policy == EverySec { sync := env.syncing; }
      if policy == EverySec && !force && sync {
        if postponed == 0 {
          postponed := env.now;
          return;
        } else if env.now - postponed < 2000 {
          return;
        }
      }
      var nwritten := AofWrite(buf, env.writes);
      postponed := 0;
      AfterAofWrite(nwritten, sync, env);
    }

    /** The part of `flushAppendOnlyFile` that follows the write. */
    method AfterAofWrite(written: int, sync: bool, env: Env)
      requires buf != "" && (written == -1 || 0 < written <= |buf|)
      modifies this
      ensures View() == AfterWrite(old(View()), if written == -1 then 0 else written, sync, env)
    {
      hide TryFsync;
      var nwritten := written;
      if nwritten != |buf| {
        if nwritten != -1 && env.truncateOk {
          file := if incrSize <= |file| then file[..incrSize] else file + Nuls(incrSize - |file|);
          nwritten := -1;
        }
        if policy == Always {
          exited := true;
          return;
        }
        writeOk := false;
        if nwritten > 0 {
          currentSize := currentSize + nwritten;
          incrSize := incrSize + nwritten;
          buf := buf[nwritten..];
        }
        return;
      }
      if !writeOk { writeOk := true; }
      currentSize := currentSize + nwritten;
      incrSize := incrSize + nwritten;
      buf := "";
      Fsync(sync, env);
    }

    /** The end of `flushAppendOnlyFile`. */
    method Fsync(sync: bool, env: Env)
      modifies this
      ensures View() == TryFsync(old(View()), sync, env)
    {
      if env.skipFsync { return; }
      if policy == Always {
        if !env.fsyncOk {
          exited := true;
          return;
        }
        fsyncOffset := incrSize;
        lastFsync := env.now;
      } else if policy == EverySec && env.now - lastFsync >= 1000 {
        if !sync { fsyncOffset := incrSize; }
        lastFsync := env.now;
      }
    }
  }

  lemma WriteNothing(s: State)
    requires Position(s) >= |s.file|
    ensures WriteAt(s, "") == s
  {
  }

  // ---------------------------------------------------------------------
  // What one flush does

  /** The next write goes to the end of the file or behind it, and the file holds at
      least what was counted. */
  predicate Sane(s: State) { s.incrSize <= |s.file| <= Position(s) }

  /** How many bytes the attempts of this flush get to the file. */
  function Reached(s: State, force: bool, env: Env): (n: nat)
    ensures n <= |s.buf|
  {
    if s.buf == "" || Postpone(s, force, env) then 0 else Attempted(|s.buf|, env.writes)
  }

  /** A short write that is truncated away again. */
  predicate Cuts(s: State, force: bool, env: Env) { env.truncateOk && 0 < Reached(s, force, env) < |s.buf| }

  /** How many bytes this flush counts as written. */
  function Count(s: State, force: bool, env: Env): (k: nat)
    ensures k <= |s.buf|
  {
    var n := Reached(s, force, env);
    if n == |s.buf| || !(env.truncateOk || s.policy == Always) then n else 0
  }

  /** The file with `n` bytes of the buffer written to it, behind a hole if there is one. */
  function WithBytes(s: State, n: nat): string
    requires Position(s) >= |s.file| && n <= |s.buf|
  {
    s.file + Nuls(Position(s) - |s.file|) + s.buf[..n]
  }

  /** The file and its position after a flush. */
  predicate FileFlushed(s: State, t: State, force: bool, env: Env)
    requires Sane(s)
  {
    var k := Count(s, force, env);
    if k > 0 then t.file == WithBytes(s, k) && Position(t) == |t.file|
    else if Cuts(s, force, env) then t.file == s.file[..s.incrSize] && (if s.append then Position(t) == |t.file| else Position(t) > |t.file|)
    else t.file == s.file && Position(t) == Position(s)
  }

  /** A flush counts `Count` bytes, takes them off the buffer and never touches what was
      counted before; only policy "always" gives up. */
  predicate Flushed(s: State, t: State, force: bool, env: Env)
    requires Sane(s)
  {
    var k := Count(s, force, env);
    && t.append == s.append && t.policy == s.policy && (s.policy != Always ==> t.exited == s.exited)
    && t.incrSize == s.incrSize + k && t.buf == s.buf[k..] && Sane(t)
    && t.file[..s.incrSize] == s.file[..s.incrSize]
    && (k > 0 || s.policy != Always || !t.exited ==> FileFlushed(s, t, force, env))
  }

  lemma FsyncFields(s: State, sync: bool, env: Env)
    ensures var t := TryFsync(s, sync, env);
      && t == s.(fsyncOffset := t.fsyncOffset, lastFsync := t.lastFsync, exited := t.exited)
      && (s.policy != Always ==> t.exited == s.exited)
  {
  }

  lemma WriteIs(s: State, n: nat)
    requires Sane(s) && n <= |s.buf|
    ensures var w := WriteAt(s, s.buf[..n]);
      && w == s.(file := w.file, offset := w.offset) && (if n == 0 then w == s else w.file == WithBytes(s, n) && Position(w) == |w.file|)
  {
  }

  lemma WholeFlush(s: State, w: State, force: bool, env: Env, sync: bool)
    requires Sane(s) && s.buf != "" && Reached(s, force, env) == |s.buf|
    requires w == s.(file := WithBytes(s, |s.buf|), offset := w.offset, postponed := 0) && Position(w) == |w.file|
    ensures Flushed(s, AfterWrite(w, |s.buf|, sync, env), force, env)
  {
    hide Reached, TryFsync, Nuls;
    var n := |s.buf|;
    var done := w.(writeOk := true, incrSize := w.incrSize + n, currentSize := w.currentSize + n, buf := "");
    FsyncFields(done, sync, env);
  }

  lemma ShortFlush(s: State, w: State, n: nat, force: bool, env: Env, sync: bool)
    requires Sane(s) && 0 < n < |s.buf| && Reached(s, force, env) == n
    requires w == s.(file := WithBytes(s, n), offset := w.offset, postponed := 0) && Position(w) == |w.file|
    ensures Flushed(s, AfterWrite(w, n, sync, env), force, env)
  {
    hide Reached, Nuls;
    assert s.buf[0..] == s.buf;
    assert WithBytes(s, n)[..s.incrSize] == s.file[..s.incrSize];
  }

  lemma FailedFlush(s: State, w: State, force: bool, env: Env, sync: bool)
    requires Sane(s) && s.buf != "" && Reached(s, force, env) == 0 && w == s.(postponed := 0)
    ensures Flushed(s, AfterWrite(w, 0, sync, env), force, env)
  {
    hide Reached;
    assert s.buf[0..] == s.buf;
  }

  lemma FlushIs(s: State, force: bool, env: Env)
    requires Sane(s)
    ensures Flushed(s, Flush(s, force, env), force, env)
  {
    hide Attempted, AfterWrite, TryFsync, Postpone;
    assert s.buf[0..] == s.buf;
    if s.buf == "" {
      FsyncFields(s, false, env);
    } else if !Postpone(s, force, env) {
      hide Flushed, WriteAt, WithBytes;
      var n, sync := Attempted(|s.buf|, env.writes), s.policy == EverySec && env.syncing;
      WriteIs(s, n);
      var w := WriteAt(s, s.buf[..n]).(postponed := 0);
      if n == |s.buf| {
        WholeFlush(s, w, force, env, sync);
      } else if n > 0 {
        ShortFlush(s, w, n, force, env, sync);
      } else {
        FailedFlush(s, w, force, env, sync);
      }
    }
  }

  // ---------------------------------------------------------------------
  // No byte is lost, duplicated or reordered

  datatype Op = Feed(data: string) | Flushing(force: bool, env: Env)

  /** The file holds exactly what was counted, and the next write goes to its end. */
  predicate Exact(s: State) { |s.file| == s.incrSize && Position(s) == |s.file| }

  /** The counted part of the file, followed by what still has to be written. */
  function Bytes(s: State): string
    requires s.incrSize <= |s.file|
  {
    s.file[..s.incrSize] + s.buf
  }

  function Step(s: State, op: Op): State
    requires Sane(s)
  {
    match op
    case Feed(data) => s.(buf := s.buf + data)
    case Flushing(force, env) => Flush(s, force, env)
  }

  function Fed(op: Op): string { if op.Feed? then op.data else "" }

  lemma StepSane(s: State, op: Op)
    requires Sane(s)
    ensures Sane(Step(s, op))
  {
    if op.Flushing? {
      hide Flush;
      FlushIs(s, op.force, op.env);
    }
  }

  /** The state after a run, which stops when the process exits, and what was fed in it. */
  function Run(s: State, ops: seq<Op>): (State, string)
    requires Sane(s)
    decreases |ops|
  {
    if ops == [] then (s, "")
    else
      StepSane(s, ops[0]);
      var t := Step(s, ops[0]);
      if t.exited then (t, Fed(ops[0]))
      else
        var r := Run(t, ops[1..]);
        (r.0, Fed(ops[0]) + r.1)
  }

  predicate Kept(s: State, t: State, fed: string) {
    && s.incrSize <= |s.file| && t.incrSize <= |t.file| && Bytes(t) == Bytes(s) + fed
    && t.append == s.append && t.policy == s.policy
    && (!t.exited ==> Exact(t)) && (s.policy != Always ==> t.exited == s.exited)
  }

  /** One flush keeps the bytes unless, on a descriptor that does not append, it
      truncates a short write away. */
  lemma FlushKeepsBytes(s: State, force: bool, env: Env)
    requires Exact(s) && (s.append || !Cuts(s, force, env))
    ensures Kept(s, Flush(s, force, env), "")
  {
    hide Flush, Count, Cuts;
    FlushIs(s, force, env);
    var t, k := Flush(s, force, env), Count(s, force, env);
    assert s.file[..s.incrSize] == s.file && Nuls(0) == "";
    if k > 0 {
      assert t.file == s.file + s.buf[..k] && t.file[..t.incrSize] == t.file;
      assert s.file + s.buf[..k] + s.buf[k..] == s.file + s.buf;
    } else {
      assert s.buf[0..] == s.buf;
    }
  }

  predicate CutsAt(s: State, op: Op) { op.Flushing? && Cuts(s, op.force, op.env) }

  lemma StepKeepsBytes(s: State, op: Op)
    requires Exact(s) && (s.append || !CutsAt(s, op))
    ensures Kept(s, Step(s, op), Fed(op))
  {
    if op.Flushing? {
      hide Cuts;
      FlushKeepsBytes(s, op.force, op.env);
      hide Flush;
    }
  }

  /** No short write of the run is truncated away. */
  predicate NeverCuts(s: State, ops: seq<Op>)
    requires Sane(s)
    decreases |ops|
  {
    ops == [] ||
    (StepSane(s, ops[0]);
    var t := Step(s, ops[0]);
    !CutsAt(s, ops[0]) && (t.exited || NeverCuts(t, ops[1..])))
  }

  /** For every run of feeds and flushes, whatever the writes, truncations and fsyncs do:
      the counted part of the file followed by the buffer is what was there at the start
      followed by all bytes fed, on a descriptor that appends or if no short write is
      truncated away. Only policy "always" ever gives up. */
  lemma {:induction false} RunKeepsBytes(s: State, ops: seq<Op>)
    requires Exact(s) && !s.exited && (s.append || NeverCuts(s, ops))
    ensures Kept(s, Run(s, ops).0, Run(s, ops).1)
    decreases |ops|
  {
    if ops != [] {
      StepKeepsBytes(s, ops[0]);
      var t := Step(s, ops[0]);
      hide Step, Fed, CutsAt;
      if !t.exited {
        RunKeepsBytes(t, ops[1..]);
      }
    }
  }

  /** Under policy "always" a flush that returns has written and synced everything. */
  lemma AlwaysDurable(s: State, force: bool, env: Env)
    requires Exact(s) && s.policy == Always && !s.exited && !env.skipFsync
    ensures var t := Flush(s, force, env);
      !t.exited ==> t.buf == "" && t.fsyncOffset == t.incrSize == |t.file| && t.file == s.file + s.buf
  {
    hide Attempted;
    assert s.buf[..|s.buf|] == s.buf && Nuls(0) == "";
  }

  // ---------------------------------------------------------------------
  // Descriptors that do not append

  /** Exactly the truncation of a short write moves the end of the file away from the
      file position. */
  lemma GapArises(s: State, force: bool, env: Env)
    requires Exact(s) && s.policy != Always
    ensures var t := Flush(s, force, env); var n := Attempted(|s.buf|, env.writes);
      Position(t) > |t.file| <==> !s.append && env.truncateOk && 0 < n < |s.buf| && !Postpone(s, force, env)
  {
    hide Attempted, Postpone, Flush;
    FlushIs(s, force, env);
  }

  predicate Zeros(s: string) { forall i | 0 <= i < |s| :: s[i] == '\0' }

  lemma {:induction false} ShiftedByte(g: nat, b: string, i: nat)
    requires g >= 1 && (Nuls(g) + b)[..|b|] == b && i < |b|
    ensures b[i] == '\0'
  {
    assert b[i] == (Nuls(g) + b)[i];
    if i >= g {
      ShiftedByte(g, b, i - g);
    }
  }

  /** Bytes preceded by a hole of `g` zeros read the same only if all are zero. */
  lemma Shifted(g: nat, b: string)
    requires g >= 1
    ensures (Nuls(g) + b)[..|b|] == b <==> Zeros(b)
  {
    if (Nuls(g) + b)[..|b|] == b {
      forall i | 0 <= i < |b|
        ensures b[i] == '\0'
      {
        ShiftedByte(g, b, i);
      }
    }
  }

  lemma CutMiddle(f: string, a: string, b: string, rest: string)
    requires |a| == |b|
    ensures f + a + rest == f + b + rest <==> a == b
  {
    if f + a + rest == f + b + rest {
      assert a == (f + a + rest)[|f|..|f| + |b|];
      assert b == (f + b + rest)[|f|..|f| + |b|];
    }
  }

  lemma AfterHole(f: string, g: nat, buf: string, k: nat)
    requires g >= 1 && k <= |buf|
    ensures (f + Nuls(g) + buf[..k])[..|f| + k] + buf[k..] == f + buf <==> Zeros(buf[..k])
  {
    hide Nuls;
    var b := buf[..k];
    var shifted := (Nuls(g) + b)[..k];
    assert (f + Nuls(g) + b)[..|f| + k] == f + shifted;
    assert buf == b + buf[k..];
    assert f + buf == f + b + buf[k..];
    CutMiddle(f, shifted, b, buf[k..]);
    Shifted(g, b);
  }

  /** The next bytes will be counted too far left: zeros come first. */
  predicate Gapped(s: State) {
    !s.append && Sane(s) && Position(s) > s.incrSize && Zeros(s.file[s.incrSize..])
  }

  /** Only zeros lie between what was counted and the next write. */
  lemma GapIsHole(s: State, k: nat)
    requires Gapped(s) && k <= |s.buf|
    ensures WithBytes(s, k) == s.file[..s.incrSize] + Nuls(Position(s) - s.incrSize) + s.buf[..k]
  {
    var z, h := s.file[s.incrSize..], Position(s) - |s.file|;
    assert s.file == s.file[..s.incrSize] + z;
    assert z + Nuls(h) == Nuls(Position(s) - s.incrSize);
  }

  /** With a gap, a flush keeps the bytes exactly if those it counts are zeros, and the
      gap stays. */
  lemma GapLosesBytes(s: State, force: bool, env: Env)
    requires Gapped(s)
    ensures var t := Flush(s, force, env); var k := Count(s, force, env);
      && t.incrSize <= |t.file| && (Bytes(t) == Bytes(s) <==> Zeros(s.buf[..k]))
      && (Zeros(s.buf[..k]) && !t.exited ==> Gapped(t))
  {
    hide Flush, Count, Cuts, Nuls, WithBytes;
    FlushIs(s, force, env);
    var t, k, g := Flush(s, force, env), Count(s, force, env), Position(s) - s.incrSize;
    if k > 0 {
      GapIsHole(s, k);
      var counted := s.file[..s.incrSize];
      AfterHole(counted, g, s.buf, k);
      if Zeros(s.buf[..k]) { GapMoves(counted, g, s.buf[..k]); }
    } else {
      assert s.buf[0..] == s.buf;
    }
  }

  lemma GapMoves(f: string, g: nat, b: string)
    requires Zeros(b)
    ensures Zeros((f + Nuls(g) + b)[|f| + |b|..])
  {
  }

  function Counted(s: State, op: Op): string { if op.Flushing? then s.buf[..Count(s, op.force, op.env)] else "" }

  /** No byte other than zero is counted as written once a short write was truncated
      away. */
  predicate ZerosAfterCut(s: State, ops: seq<Op>, cut: bool)
    requires Sane(s)
    decreases |ops|
  {
    ops == [] ||
    (StepSane(s, ops[0]);
    var t := Step(s, ops[0]);
    (cut ==> Zeros(Counted(s, ops[0]))) && (t.exited || ZerosAfterCut(t, ops[1..], cut || CutsAt(s, ops[0]))))
  }

  /** The bytes `x` were to be stored, and the buffer holds those that are not counted. */
  predicate Behind(s: State, x: string) { Sane(s) && |x| == s.incrSize + |s.buf| && s.buf == x[s.incrSize..] }

  lemma BehindStep(s: State, x: string, op: Op)
    requires Behind(s, x)
    ensures var t := Step(s, op);
      Behind(t, x + Fed(op)) && s.incrSize <= t.incrSize && t.file[..s.incrSize] == s.file[..s.incrSize]
  {
    if op.Flushing? {
      hide Flush, Count;
      FlushIs(s, op.force, op.env);
      var k := Count(s, op.force, op.env);
      assert x[s.incrSize..][k..] == x[s.incrSize + k..];
      assert x + "" == x;
    } else {
      assert (x + op.data)[s.incrSize..] == x[s.incrSize..] + op.data;
    }
  }

  lemma BehindSelf(s: State)
    requires Sane(s)
    ensures Behind(s, Bytes(s))
  {
    assert Bytes(s)[s.incrSize..] == s.buf;
  }

  /** Conservation in every run, with or without gaps: no byte is counted twice or left
      out of the count, the buffer holds exactly the bytes not yet counted, and nothing
      counted is changed later. */
  lemma {:induction false} RunConserves(s: State, x: string, ops: seq<Op>)
    requires Behind(s, x)
    ensures var r := Run(s, ops);
      Behind(r.0, x + r.1) && s.incrSize <= r.0.incrSize && r.0.file[..s.incrSize] == s.file[..s.incrSize]
    decreases |ops|
  {
    if ops == [] {
      assert x + "" == x;
    } else {
      BehindStep(s, x, ops[0]);
      var t := Step(s, ops[0]);
      hide Step, Fed;
      if !t.exited {
        RunConserves(t, x + Fed(ops[0]), ops[1..]);
        var r := Run(t, ops[1..]);
        assert x + Fed(ops[0]) + r.1 == x + (Fed(ops[0]) + r.1);
        assert r.0.file[..t.incrSize][..s.incrSize] == r.0.file[..s.incrSize];
        assert t.file[..t.incrSize][..s.incrSize] == t.file[..s.incrSize];
      }
    }
  }

  /** What was stored wrongly stays wrong. */
  lemma WrongStays(s: State, x: string, ops: seq<Op>)
    requires Behind(s, x) && Bytes(s) != x
    ensures var r := Run(s, ops); r.0.incrSize <= |r.0.file| && Bytes(r.0) != x + r.1
  {
    RunConserves(s, x, ops);
    var r := Run(s, ops);
    hide Run;
    var n := s.incrSize;
    assert x == x[..n] + x[n..];
    assert s.file[..n] != x[..n];
    assert Bytes(r.0)[..n] == s.file[..n] by { assert r.0.file[..r.0.incrSize][..n] == r.0.file[..n]; }
    assert (x + r.1)[..n] == x[..n];
  }

  /** With a gap, a step keeps the bytes exactly if it counts only zeros. */
  lemma GapStep(s: State, op: Op)
    requires Gapped(s)
    ensures var t := Step(s, op);
      && t.incrSize <= |t.file| && (Bytes(t) == Bytes(s) + Fed(op) <==> Zeros(Counted(s, op)))
      && (Zeros(Counted(s, op)) && !t.exited ==> Gapped(t))
  {
    if op.Flushing? {
      hide Flush, Count, Gapped, Bytes;
      GapLosesBytes(s, op.force, op.env);
      assert Bytes(s) + "" == Bytes(s);
    } else {
      assert s.file[..s.incrSize] + (s.buf + op.data) == Bytes(s) + op.data;
    }
  }

  lemma {:induction false} GapRun(s: State, ops: seq<Op>)
    requires Gapped(s) && !s.exited
    ensures var r := Run(s, ops); r.0.incrSize <= |r.0.file| && (Bytes(r.0) == Bytes(s) + r.1 <==> ZerosAfterCut(s, ops, true))
    decreases |ops|
  {
    if ops == [] {
      assert Bytes(s) + "" == Bytes(s);
    } else {
      var t, fed := Step(s, ops[0]), Fed(ops[0]);
      GapStep(s, ops[0]);
      BehindSelf(s);
      BehindStep(s, Bytes(s), ops[0]);
      hide Step, Fed, Counted, CutsAt, Bytes, Zeros, Gapped;
      if !t.exited {
        var r := Run(t, ops[1..]);
        assert Bytes(s) + fed + r.1 == Bytes(s) + (fed + r.1);
        if Bytes(t) == Bytes(s) + fed {
          GapRun(t, ops[1..]);
        } else {
          WrongStays(t, Bytes(s) + fed, ops[1..]);
        }
      }
    }
  }

  lemma CutOpens(s: State, op: Op)
    requires Exact(s) && !s.append && CutsAt(s, op)
    ensures var t := Step(s, op);
      t.incrSize <= |t.file| && Bytes(t) == Bytes(s) + Fed(op) && (!t.exited ==> Gapped(t))
  {
    hide Flush, Attempted, Postpone;
    FlushIs(s, op.force, op.env);
    assert s.buf[0..] == s.buf;
    assert Bytes(s) + "" == Bytes(s);
  }

  /** For every run, from a file just opened: the bytes are kept if and only if the
      descriptor appends, or no byte other than zero is counted as written after the first
      short write that was truncated away. */
  lemma {:induction false} RunExact(s: State, ops: seq<Op>)
    requires Exact(s) && !s.exited
    ensures var r := Run(s, ops);
      r.0.incrSize <= |r.0.file| && (Bytes(r.0) == Bytes(s) + r.1 <==> s.append || ZerosAfterCut(s, ops, false))
    decreases |ops|
  {
    if s.append {
      RunKeepsBytes(s, ops);
    } else if ops == [] {
      assert Bytes(s) + "" == Bytes(s);
    } else {
      var t, fed := Step(s, ops[0]), Fed(ops[0]);
      if CutsAt(s, ops[0]) {
        CutOpens(s, ops[0]);
      } else {
        StepKeepsBytes(s, ops[0]);
      }
      assert t.exited || if CutsAt(s, ops[0]) then Gapped(t) else Exact(t) && !t.append;
      hide Step, Fed, Counted, CutsAt, Bytes, Zeros, Gapped;
      if !t.exited {
        var r := Run(t, ops[1..]);
        assert Bytes(s) + fed + r.1 == Bytes(s) + (fed + r.1);
        if CutsAt(s, ops[0]) {
          GapRun(t, ops[1..]);
        } else {
          RunExact(t, ops[1..]);
        }
      }
    }
  }

  /** A short write undone on a descriptor that does not append, followed by a good
      write: the file starts with a zero instead of the fed bytes. */
  lemma HoleExample()
    ensures var s := State("", 0, false, "*1", 0, 0, NoSync, true, 0, 0, 0, false);
      var t := Flush(s, false, Env([Wrote(1), Failed], true, true, false, false, 0));
      Position(t) >= |t.file| && Flush(t, false, Env([], true, true, false, false, 0)).file == "\0*1"
  {
    var s := State("", 0, false, "*1", 0, 0, NoSync, true, 0, 0, 0, false);
    var writes := [Wrote(1), Failed];
    assert writes[1..] == [Failed];
    assert Attempted(1, [Failed]) == 0;
    assert Attempted(2, writes) == 1;
    var t := Flush(s, false, Env(writes, true, true, false, false, 0));
    assert t.file == "" && t.offset == 1 && t.buf == "*1";
    assert Attempted(2, []) == 2;
    assert Nuls(1) == "\0";
  }
}
