/** Several workers encoding one stream (a52enc.c:994-1086, 1364-1481): the hand-off of submissions, the turn that
    serialises the copying of samples, and the overlapped windows each frame is made of. */
module Workers {
  import opened Arithmetic

  /** The values of all channels at one instant. */
  type Sample = int

  const FRAME: nat := 1536
  const OVERLAP: nat := 256

  type Block = s: seq<Sample> | |s| == 1536 witness seq(1536, _ => 0)

  type Tail = s: seq<Sample> | |s| == 256 witness seq(256, _ => 0)

  // ---------- the stream and its windows ----------

  /** The samples before the stream, then all submissions in order. */
  function Stream(init: Tail, subs: seq<Block>): (r: seq<Sample>)
    ensures |r| == OVERLAP + FRAME * |subs|
  {
    if subs == [] then init else Stream(init, subs[..|subs| - 1]) + subs[|subs| - 1]
  }

  /** Input of audio block b of frame k: 512 samples of the stream, the next block's input shifted by 256. */
  function Windows(init: Tail, subs: seq<Block>, k: nat): (r: seq<seq<Sample>>)
    requires k < |subs|
    ensures |r| == 6
  {
    seq(6, b requires 0 <= b < 6 => Stream(init, subs)[FRAME * k + OVERLAP * b..FRAME * k + OVERLAP * b + 512])
  }

  /** The 256 samples the encoder keeps before frame k. */
  function Kept(init: Tail, subs: seq<Block>, k: nat): Tail
    requires k <= |subs|
  {
    if k == 0 then init else subs[k - 1][1280..]
  }

  /** The windows a frame takes from the kept samples and its own. */
  function Cut(kept: Tail, input: Block): (r: seq<seq<Sample>>)
    ensures |r| == 6
  {
    seq(6, b requires 0 <= b < 6 =>
      if b == 0 then kept + input[..OVERLAP] else input[OVERLAP * (b - 1)..OVERLAP * (b - 1) + 512])
  }

  lemma StreamPush(init: Tail, subs: seq<Block>)
    requires subs != []
    ensures var n := |subs| - 1;
      Stream(init, subs) == Stream(init, subs[..n]) + subs[n] && |Stream(init, subs[..n])| == FRAME * n + OVERLAP
    ensures |subs| == 1 ==> Stream(init, subs[..|subs| - 1]) == init
    ensures forall k :: 0 <= k < |subs| ==> Kept(init, subs, k) == Kept(init, subs[..|subs| - 1], k)
  {
  }

  lemma PrefixSlice(a: seq<Sample>, x: seq<Sample>, lo: nat, hi: nat)
    requires lo <= hi <= |a|
    ensures (a + x)[lo..hi] == a[lo..hi] && (a + x)[|a|..|a| + |x|] == x
  {
  }

  lemma {:induction false} StreamAt(init: Tail, subs: seq<Block>, k: nat)
    requires k < |subs|
    ensures Stream(init, subs)[FRAME * k..FRAME * k + OVERLAP] == Kept(init, subs, k)
    ensures Stream(init, subs)[FRAME * k + OVERLAP..FRAME * (k + 1) + OVERLAP] == subs[k]
  {
    hide Stream, Kept;
    var n, p := |subs| - 1, FRAME * k;
    var before := Stream(init, subs[..n]);
    StreamPush(init, subs);
    PrefixSlice(before, subs[n], p, p + OVERLAP);
    if k < n {
      StreamAt(init, subs[..n], k);
      PrefixSlice(before, subs[n], p + OVERLAP, p + FRAME + OVERLAP);
    } else if k > 0 {
      StreamAt(init, subs[..n], k - 1);
      SliceOfSlice(before, p - 1280, p + OVERLAP, 1280, FRAME);
      KeptIs(init, subs, k);
    } else {
      KeptIs(init, subs, k);
      assert before[0..OVERLAP] == before;
    }
  }

  lemma KeptIs(init: Tail, subs: seq<Block>, k: nat)
    requires k <= |subs|
    ensures Kept(init, subs, k) == if k == 0 then init else subs[k - 1][1280..1536]
  {
  }

  lemma SliceOfSlice(s: seq<Sample>, lo: nat, hi: nat, i: nat, j: nat)
    requires lo <= hi <= |s| && i <= j <= hi - lo
    ensures s[lo..hi][i..j] == s[lo + i..lo + j]
  {
    assert forall k :: 0 <= k < j - i ==> s[lo..hi][i..j][k] == s[lo + i..lo + j][k];
  }

  /** Cutting frame after frame gives the windows of the whole stream. */
  lemma CutIsWindows(init: Tail, subs: seq<Block>, k: nat)
    requires k < |subs|
    ensures Cut(Kept(init, subs, k), subs[k]) == Windows(init, subs, k)
  {
    StreamAt(init, subs, k);
    var s := Stream(init, subs);
    var a := s[FRAME * k..FRAME * k + OVERLAP];
    var c := s[FRAME * k + OVERLAP..FRAME * (k + 1) + OVERLAP];
    hide Stream, Kept;
    forall b | 0 <= b < 6
      ensures Cut(a, c)[b] == s[FRAME * k + OVERLAP * b..FRAME * k + OVERLAP * b + 512]
    {
      if b == 0 {
        assert a + c[..OVERLAP] == s[FRAME * k..FRAME * k + 512];
      } else {
        SliceOfSlice(s, FRAME * k + OVERLAP, FRAME * (k + 1) + OVERLAP, OVERLAP * (b - 1), OVERLAP * (b - 1) + 512);
      }
    }
  }

  /** Later submissions do not change earlier windows. */
  lemma WindowsGrow(init: Tail, subs: seq<Block>, x: Block, k: nat)
    requires k < |subs|
    ensures Windows(init, subs + [x], k) == Windows(init, subs, k) && Kept(init, subs + [x], k) == Kept(init, subs, k)
  {
    assert (subs + [x])[..|subs|] == subs;
    assert Stream(init, subs + [x]) == Stream(init, subs) + x;
    hide Stream;
    forall b | 0 <= b < 6
      ensures Windows(init, subs + [x], k)[b] == Windows(init, subs, k)[b]
    {
      assert FRAME * k + OVERLAP * b + 512 <= |Stream(init, subs)|;
    }
  }

  /** copy_samples for one frame, as the sequential encoder runs it: six windows filled, the last 256 samples kept. */
  method CopySamples(last: array<Sample>, input: array<Sample>, windows: seq<array<Sample>>)
    requires last.Length == 256 && input.Length == 1536 && last != input && |windows| == 6
    requires forall b :: 0 <= b < 6 ==> windows[b].Length == 512 && windows[b] != last && windows[b] != input
    requires forall b, c :: 0 <= b < c < 6 ==> windows[b] != windows[c]
    modifies last, windows
    ensures forall b :: 0 <= b < 6 ==> windows[b][..] == Cut(old(last[..]), input[..])[b]
    ensures last[..] == input[1280..]
  {
    CopyRange(last, 0, windows[0], 0, 256);
    CopyRange(input, 0, windows[0], 256, 256);
    assert windows[0][..] == old(last[..]) + input[..256];
    for b := 1 to 6
      invariant forall c :: 0 <= c < b ==> windows[c][..] == Cut(old(last[..]), input[..])[c]
      invariant last[..] == old(last[..])
    {
      CopyRange(input, 256 * (b - 1), windows[b], 0, 512);
      assert windows[b][..] == input[256 * (b - 1)..256 * (b - 1) + 512];
      assert input[..][OVERLAP * (b - 1)..OVERLAP * (b - 1) + 512] == input[256 * (b - 1)..256 * (b - 1) + 512];
    }
    CopyRange(input, 256 * 5, last, 0, 256);
    assert last[..] == input[1280..1536];
  }

  /** memcpy of n samples. */
  method CopyRange(source: array<Sample>, from_: nat, target: array<Sample>, to_: nat, n: nat)
    requires source != target && from_ + n <= source.Length && to_ + n <= target.Length
    modifies target
    ensures target[to_..to_ + n] == source[from_..from_ + n]
    ensures forall k :: 0 <= k < target.Length && !(to_ <= k < to_ + n) ==> target[k] == old(target[k])
  {
    for i := 0 to n
      invariant target[to_..to_ + i] == source[from_..from_ + i]
      invariant forall k :: 0 <= k < target.Length && !(to_ <= k < to_ + n) ==> target[k] == old(target[k])
    {
      target[to_ + i] := source[from_ + i];
      assert target[to_..to_ + i + 1] == target[to_..to_ + i] + [target[to_ + i]];
    }
  }

  // ---------- the protocol ----------

  /** Where a worker is: waiting for work, signalled, waiting for its turn to copy, or encoding. */
  datatype Phase = Idle | Signalled | AwaitTurn | Encoding

  /** The caller is outside process_frame_parallel, waiting for the worker to confirm, or confirmed. */
  datatype Caller = Ready | Waiting | Confirmed

  /** A frame, represented by the windows it is encoded from; encoding is a function of those and of the worker. */
  type Frame = seq<seq<Sample>>

  datatype Option<T> = None | Some(value: T)

  /** One thread context. `job` is not in the source: the number of the submission the worker was last given. */
  datatype Worker = Worker(phase: Phase, job: int, input: Block, windows: Frame, frame: Option<Frame>)

  /** `threads`, `current`, `turn` and `last` are the source's n_threads, current_thread_num, samples_thread_num and
      last_samples; the rest is history: submissions, the order of copies, and what each call returned. */
  datatype State = State(threads: nat, caller: Caller, current: nat, turn: nat, last: Tail, workers: seq<Worker>,
                         init: Tail, subs: seq<Block>, copies: seq<int>, returned: seq<Option<Frame>>)

  datatype Action =
    | Submit(block: Block)
    | Confirm(w: nat)
    | Resume
    | Copy(w: nat)
    | Finish(w: nat)

  function Start(n: nat, init: Tail): State
  {
    State(n, Ready, 0, 0, init, seq(n, _ => Worker(Idle, -1, seq(1536, _ => 0), [], None)), init, [], [], [])
  }

  predicate Enabled(s: State, a: Action)
  {
    match a
    // the caller holds enter_mutex only while the worker waits on enter_cond
    case Submit(_) => s.caller == Ready && s.current < |s.workers| && s.workers[s.current].phase == Idle
    // the woken worker takes confirm_mutex, which the caller gives up only by waiting on confirm_cond
    case Confirm(w) => w < |s.workers| && s.workers[w].phase == Signalled && s.caller == Waiting
    case Resume => s.caller == Confirmed && s.threads > 0
    case Copy(w) => w < |s.workers| && s.workers[w].phase == AwaitTurn && s.turn == w && s.threads > 0
    case Finish(w) => w < |s.workers| && s.workers[w].phase == Encoding
  }

  function Apply(s: State, a: Action): State
    requires Enabled(s, a)
  {
    match a
    // prepare_work stores the samples; the call returns the frame the worker has ready, none while it is at START
    case Submit(block) =>
      var w := s.workers[s.current];
      s.(caller := Waiting, subs := s.subs + [block], returned := s.returned + [w.frame],
         workers := s.workers[s.current := w.(phase := Signalled, job := |s.subs|, input := block)])
    case Confirm(w) => s.(caller := Confirmed, workers := s.workers[w := s.workers[w].(phase := AwaitTurn)])
    case Resume => s.(caller := Ready, current := (s.current + 1) % s.threads)
    case Copy(w) =>
      var x := s.workers[w];
      s.(turn := (s.turn + 1) % s.threads, last := x.input[1280..], copies := s.copies + [x.job],
         workers := s.workers[w := x.(phase := Encoding, windows := Cut(s.last, x.input))])
    case Finish(w) =>
      s.(workers := s.workers[w := s.workers[w].(phase := Idle, frame := Some(s.workers[w].windows))])
  }

  /** The state a run of actions leads to, if each is enabled where it is taken. */
  function Exec(s: State, actions: seq<Action>): Option<State>
  {
    if actions == [] then Some(s)
    else
      var t, a := Exec(s, actions[..|actions| - 1]), actions[|actions| - 1];
      if t.Some? && Enabled(t.value, a) then Some(Apply(t.value, a)) else None
  }

  // ---------- the invariant ----------

  /** A worker has not yet copied its submission. */
  predicate Pending(x: Worker) { x.phase == Signalled || x.phase == AwaitTurn }

  /** What holds of worker w of n after the submissions subs and the first `copied` copies. */
  ghost predicate WorkerOk(x: Worker, w: nat, n: nat, init: Tail, subs: seq<Block>, copied: nat)
    requires n > 0
  {
    if x.job < 0 then |subs| <= w && x.phase == Idle && x.frame == None
    else
      x.job < |subs| <= x.job + n && x.job % n == w && (Pending(x) <==> x.job >= copied) &&
      (Pending(x) ==> x.input == subs[x.job]) &&
      (x.phase == Encoding ==> x.windows == Windows(init, subs, x.job)) &&
      (x.phase == Idle ==> x.frame == Some(Windows(init, subs, x.job)))
  }

  ghost predicate WorkersOk(s: State)
    requires s.threads > 0
  {
    |s.workers| == s.threads &&
    forall w :: 0 <= w < |s.workers| ==> WorkerOk(s.workers[w], w, s.threads, s.init, s.subs, |s.copies|)
  }

  ghost predicate CallerOk(s: State)
    requires s.threads > 0
  {
    if s.caller == Ready then s.current == |s.subs| % s.threads
    else |s.subs| > 0 && s.current == (|s.subs| - 1) % s.threads
  }

  /** Only the worker of the last submission is signalled and unconfirmed, and only while the caller waits. */
  ghost predicate SignalOk(s: State)
  {
    forall w :: 0 <= w < |s.workers| ==> (s.workers[w].phase == Signalled <==> s.caller == Waiting && w == s.current)
  }

  ghost predicate TurnOk(s: State)
    requires s.threads > 0
  {
    |s.copies| <= |s.subs| <= |s.copies| + s.threads && s.turn == |s.copies| % s.threads &&
    s.last == Kept(s.init, s.subs, |s.copies|) && forall i :: 0 <= i < |s.copies| ==> s.copies[i] == i
  }

  /** What call i returns: nothing for the first calls, then the frame submitted `threads` calls before. */
  ghost function Expected(n: nat, init: Tail, subs: seq<Block>, i: nat): Option<Frame>
    requires i < |subs|
  {
    if i < n then None else Some(Windows(init, subs, i - n))
  }

  ghost predicate ReturnsOk(s: State)
  {
    |s.returned| == |s.subs| &&
    forall i :: 0 <= i < |s.returned| ==> s.returned[i] == Expected(s.threads, s.init, s.subs, i)
  }

  ghost predicate Inv(s: State)
  {
    1 < s.threads && WorkersOk(s) && CallerOk(s) && SignalOk(s) && TurnOk(s) && ReturnsOk(s)
  }

  lemma ModUnique(a: int, b: int, n: nat)
    requires n > 0 && 0 <= a && 0 <= b && a % n == b % n && a - b < n && b - a < n
    ensures a == b
  {
    if a < b { ResiduesDiffer(a, b, n); }
    if b < a { ResiduesDiffer(b, a, n); }
  }

  lemma ResiduesDiffer(a: nat, b: nat, n: nat)
    requires n > 0 && a < b < a + n
    ensures a % n != b % n
  {
    var q, r := a / n, a % n;
    var p, t := b / n, b % n;
    assert a == n * q + r && b == n * p + t;
    if r == t {
      assert n * (p - q) == b - a;
      if p - q >= 1 { MulMono(1, p - q, n); } else { MulMono(p - q, 0, n); }
    }
  }

  lemma ModNext(a: nat, n: nat)
    requires n > 0
    ensures (a + 1) % n == (a % n + 1) % n
  {
    DivNext(a, n);
    SmallMod(a % n, n);
  }

  lemma SmallMod(r: nat, n: nat)
    requires r < n
    ensures (r + 1) % n == if r < n - 1 then r + 1 else 0
  {
    if r < n - 1 { DivisionUnique(r + 1, n, 0, r + 1); } else { DivisionUnique(r + 1, n, 1, 0); }
  }

  lemma StartInv(n: nat, init: Tail)
    requires n > 1
    ensures Inv(Start(n, init))
  {
  }

  /** A submission to another worker leaves worker w as it was. */
  lemma OtherSubmits(x: Worker, w: nat, n: nat, init: Tail, subs: seq<Block>, copied: nat, block: Block)
    requires n > 0 && w < n && WorkerOk(x, w, n, init, subs, copied) && w != |subs| % n
    ensures WorkerOk(x, w, n, init, subs + [block], copied)
  {
    if x.job < 0 {
      if |subs| == w { DivisionUnique(w, n, 0, w); }
    } else {
      if |subs| == x.job + n { ModPlus(x.job, n); }
      WindowsGrow(init, subs, block, x.job);
    }
    hide Windows;
  }

  lemma ModPlus(a: nat, n: nat)
    requires n > 0
    ensures (a + n) % n == a % n
  {
    assert a + n == n * (a / n + 1) + a % n;
    DivisionUnique(a + n, n, a / n + 1, a % n);
  }

  /** The worker whose turn to submit it is has copied its last submission and has its frame ready. */
  lemma NextIsFree(s: State)
    requires Inv(s) && s.caller == Ready && s.current < |s.workers| && s.workers[s.current].phase == Idle
    ensures s.workers[s.current].frame == (if |s.subs| < s.threads then None
                                           else Some(Windows(s.init, s.subs, |s.subs| - s.threads)))
    ensures |s.subs| + 1 <= |s.copies| + s.threads
  {
    var x, n, k := s.workers[s.current], s.threads, |s.subs|;
    assert WorkerOk(x, s.current, n, s.init, s.subs, |s.copies|);
    hide Windows, Kept;
    if x.job >= 0 {
      ModPlus(x.job, n);
      ModUnique(x.job + n, k, n);
    } else if k >= n {
      assert false;
    }
  }

  lemma SubmitWorkers(s: State, block: Block)
    requires Inv(s) && Enabled(s, Submit(block))
    ensures WorkersOk(Apply(s, Submit(block)))
  {
    var t := Apply(s, Submit(block));
    hide WorkerOk, Windows;
    forall w | 0 <= w < |t.workers|
      ensures WorkerOk(t.workers[w], w, t.threads, t.init, t.subs, |t.copies|)
    {
      assert WorkerOk(s.workers[w], w, s.threads, s.init, s.subs, |s.copies|);
      if w == s.current {
        NewJob(s, block);
      } else {
        OtherSubmits(s.workers[w], w, s.threads, s.init, s.subs, |s.copies|, block);
      }
    }
  }

  lemma NewJob(s: State, block: Block)
    requires Inv(s) && Enabled(s, Submit(block))
    ensures var t := Apply(s, Submit(block));
      WorkerOk(t.workers[s.current], s.current, t.threads, t.init, t.subs, |t.copies|)
  {
  }

  lemma SubmitReturns(s: State, block: Block)
    requires Inv(s) && Enabled(s, Submit(block))
    ensures ReturnsOk(Apply(s, Submit(block)))
  {
    var t := Apply(s, Submit(block));
    NextIsFree(s);
    hide Windows, WorkerOk, Kept;
    forall i | 0 <= i < |t.returned|
      ensures t.returned[i] == Expected(t.threads, t.init, t.subs, i)
    {
      if i >= s.threads { WindowsGrow(s.init, s.subs, block, i - s.threads); }
      if i < |s.subs| { assert s.returned[i] == Expected(s.threads, s.init, s.subs, i); }
    }
  }

  lemma SubmitInv(s: State, block: Block)
    requires Inv(s) && Enabled(s, Submit(block))
    ensures Inv(Apply(s, Submit(block)))
  {
    SubmitWorkers(s, block);
    SubmitReturns(s, block);
    NextIsFree(s);
    hide WorkerOk, Windows, Stream;
    assert (s.subs + [block])[..|s.subs|] == s.subs;
  }

  lemma ConfirmInv(s: State, w: nat)
    requires Inv(s) && Enabled(s, Confirm(w))
    ensures Inv(Apply(s, Confirm(w)))
  {
    var t := Apply(s, Confirm(w));
    hide Windows, Kept, Expected;
    assert forall v :: 0 <= v < |s.workers| ==> WorkerOk(s.workers[v], v, s.threads, s.init, s.subs, |s.copies|);
  }

  lemma ResumeInv(s: State)
    requires Inv(s) && Enabled(s, Resume)
    ensures Inv(Apply(s, Resume))
  {
    ModNext(|s.subs| - 1, s.threads);
    hide Windows, Kept, Expected, WorkerOk;
  }

  /** The worker that takes the turn copies the oldest submission not copied yet. */
  lemma TurnIsNext(s: State, w: nat)
    requires Inv(s) && w < |s.workers| && s.turn == w && Pending(s.workers[w])
    ensures s.workers[w].job == |s.copies| < |s.subs|
  {
    var x := s.workers[w];
    assert WorkerOk(x, w, s.threads, s.init, s.subs, |s.copies|);
    hide Windows, Kept, Expected;
    ModUnique(x.job, |s.copies|, s.threads);
  }

  lemma CopyWorkers(s: State, w: nat)
    requires Inv(s) && Enabled(s, Copy(w))
    ensures WorkersOk(Apply(s, Copy(w)))
  {
    var t := Apply(s, Copy(w));
    TurnIsNext(s, w);
    CutIsWindows(s.init, s.subs, |s.copies|);
    hide Windows, Kept, Cut, Expected;
    forall v | 0 <= v < |t.workers|
      ensures WorkerOk(t.workers[v], v, t.threads, t.init, t.subs, |t.copies|)
    {
      assert WorkerOk(s.workers[v], v, s.threads, s.init, s.subs, |s.copies|);
    }
  }

  lemma CopyInv(s: State, w: nat)
    requires Inv(s) && Enabled(s, Copy(w))
    ensures Inv(Apply(s, Copy(w)))
  {
    CopyWorkers(s, w);
    TurnIsNext(s, w);
    ModNext(|s.copies|, s.threads);
    assert WorkerOk(s.workers[w], w, s.threads, s.init, s.subs, |s.copies|);
    hide Windows, Cut, Expected;
  }

  lemma FinishInv(s: State, w: nat)
    requires Inv(s) && Enabled(s, Finish(w))
    ensures Inv(Apply(s, Finish(w)))
  {
    hide Windows, Kept, Expected;
    assert forall v :: 0 <= v < |s.workers| ==> WorkerOk(s.workers[v], v, s.threads, s.init, s.subs, |s.copies|);
  }

  /** Every action of every participant keeps the invariant. */
  lemma StepInv(s: State, a: Action)
    requires Inv(s) && Enabled(s, a)
    ensures Inv(Apply(s, a))
  {
    hide Inv, Enabled, Apply;
    match a
    case Submit(block) => SubmitInv(s, block);
    case Confirm(w) => ConfirmInv(s, w);
    case Resume => ResumeInv(s);
    case Copy(w) => CopyInv(s, w);
    case Finish(w) => FinishInv(s, w);
  }

  lemma {:induction false} RunInv(n: nat, init: Tail, actions: seq<Action>)
    requires n > 1 && Exec(Start(n, init), actions).Some?
    ensures Inv(Exec(Start(n, init), actions).value)
  {
    if actions == [] {
      StartInv(n, init);
    } else {
      RunInv(n, init, actions[..|actions| - 1]);
      StepInv(Exec(Start(n, init), actions[..|actions| - 1]).value, actions[|actions| - 1]);
    }
    hide Inv, Enabled, Apply, Start;
  }

  /** The blocks handed in by a run, in order. */
  function Handed(actions: seq<Action>): seq<Block>
  {
    if actions == [] then []
    else
      var a := actions[|actions| - 1];
      Handed(actions[..|actions| - 1]) + (if a.Submit? then [a.block] else [])
  }

  lemma {:induction false} History(n: nat, init: Tail, actions: seq<Action>)
    requires Exec(Start(n, init), actions).Some?
    ensures var s := Exec(Start(n, init), actions).value;
      s.subs == Handed(actions) && s.init == init && s.threads == n
  {
    if actions != [] { History(n, init, actions[..|actions| - 1]); }
  }

  /** In every interleaving: the encoders' shared sample state is touched in submission order; the worker last given
      submission j is worker j mod n; every frame finished is made of the windows the sequential encoder cuts for that
      submission; and call i returns frame i - n, or nothing during the first n calls. */
  lemma EveryRun(n: nat, init: Tail, actions: seq<Action>)
    requires n > 1 && Exec(Start(n, init), actions).Some?
    ensures var s, blocks := Exec(Start(n, init), actions).value, Handed(actions);
      (forall i :: 0 <= i < |s.copies| ==> s.copies[i] == i) && |s.copies| <= |blocks| &&
      (forall w :: 0 <= w < n ==>
        |s.workers| == n && s.workers[w].job < |blocks| &&
        (s.workers[w].job >= 0 ==> s.workers[w].job % n == w) &&
        (s.workers[w].phase == Idle && s.workers[w].job >= 0 ==>
          s.workers[w].frame == Some(Windows(init, blocks, s.workers[w].job)))) &&
      |s.returned| == |blocks| &&
      forall i :: 0 <= i < |blocks| ==> s.returned[i] == if i < n then None else Some(Windows(init, blocks, i - n))
  {
    History(n, init, actions);
    RunInv(n, init, actions);
    var s := Exec(Start(n, init), actions).value;
    hide Exec, Start, Windows, Handed, Kept;
    forall w | 0 <= w < n
      ensures WorkerOk(s.workers[w], w, n, init, s.subs, |s.copies|)
    {
    }
    forall i | 0 <= i < |s.subs|
      ensures s.returned[i] == if i < n then None else Some(Windows(init, s.subs, i - n))
    {
      assert s.returned[i] == Expected(s.threads, s.init, s.subs, i);
    }
  }

  // ---------- progress ----------

  /** While a submission waits to be copied, the worker that holds the turn is the one it was given to. */
  lemma SomeoneHoldsTheTurn(s: State)
    requires Inv(s) && |s.copies| < |s.subs|
    ensures s.turn < |s.workers| && Pending(s.workers[s.turn]) && s.workers[s.turn].job == |s.copies|
  {
    var m, n, w := |s.copies|, s.threads, s.turn;
    var x := s.workers[w];
    assert WorkerOk(x, w, n, s.init, s.subs, m);
    hide Windows, Kept, Expected;
    if x.job < 0 {
      if m < n { DivisionUnique(m, n, 0, m); }
      assert false;
    } else {
      ModUnique(x.job, m, n);
    }
  }

  function PhaseRank(p: Phase): nat
  {
    match p case Idle => 0 case Encoding => 1 case AwaitTurn => 2 case Signalled => 3
  }

  function WorkRank(workers: seq<Worker>): nat
  {
    if workers == [] then 0 else WorkRank(workers[..|workers| - 1]) + PhaseRank(workers[|workers| - 1].phase)
  }

  /** Steps still to be taken without a new submission. */
  function Rank(s: State): nat
  {
    WorkRank(s.workers) + (match s.caller case Ready => 0 case Confirmed => 1 case Waiting => 2)
  }

  lemma {:induction false} RankUpdate(workers: seq<Worker>, w: nat, x: Worker)
    requires w < |workers|
    ensures WorkRank(workers[w := x]) == WorkRank(workers) - PhaseRank(workers[w].phase) + PhaseRank(x.phase)
  {
    var n := |workers| - 1;
    if w < n {
      assert workers[w := x][..n] == workers[..n][w := x];
      RankUpdate(workers[..n], w, x);
    } else {
      assert workers[w := x][..n] == workers[..n];
    }
  }

  lemma {:induction false} SomeoneWorks(workers: seq<Worker>) returns (w: nat)
    requires WorkRank(workers) > 0
    ensures w < |workers| && workers[w].phase != Idle
  {
    var n := |workers| - 1;
    if workers[n].phase != Idle { w := n; } else { w := SomeoneWorks(workers[..n]); }
  }

  lemma StepRank(s: State, a: Action)
    requires Inv(s) && Enabled(s, a) && !a.Submit?
    ensures Rank(Apply(s, a)) < Rank(s)
  {
    hide Inv, WorkRank;
    match a
    case Confirm(w) => RankUpdate(s.workers, w, Apply(s, a).workers[w]);
    case Resume =>
    case Copy(w) => RankUpdate(s.workers, w, Apply(s, a).workers[w]);
    case Finish(w) => RankUpdate(s.workers, w, Apply(s, a).workers[w]);
  }

  /** Nobody waits for ever: unless everything is idle, some step other than a new submission can be taken, and each
      brings the end nearer. */
  lemma Progress(s: State) returns (a: Action)
    requires Inv(s) && Rank(s) > 0
    ensures !a.Submit? && Enabled(s, a) && Rank(Apply(s, a)) < Rank(s)
  {
    if s.caller == Confirmed {
      a := Resume;
    } else if s.caller == Waiting {
      InTurn(s);
      a := Confirm(s.current);
    } else {
      var w := SomeoneWorks(s.workers);
      if s.workers[w].phase == Encoding {
        a := Finish(w);
      } else {
        Uncopied(s, w);
        SomeoneHoldsTheTurn(s);
        a := Copy(s.turn);
      }
    }
    hide Inv, Rank;
    StepRank(s, a);
  }

  lemma InTurn(s: State)
    requires Inv(s) && s.caller == Waiting
    ensures s.current < |s.workers| && s.workers[s.current].phase == Signalled
  {
  }

  lemma Uncopied(s: State, w: nat)
    requires Inv(s) && w < |s.workers| && Pending(s.workers[w])
    ensures |s.copies| < |s.subs|
  {
    assert WorkerOk(s.workers[w], w, s.threads, s.init, s.subs, |s.copies|);
  }

  /** Left alone, every reachable state finishes: all submissions are copied and encoded and the caller may go on. */
  lemma {:induction false} Drains(s: State) returns (rest: seq<Action>)
    requires Inv(s)
    ensures Exec(s, rest).Some? && (forall i :: 0 <= i < |rest| ==> !rest[i].Submit?)
    ensures var t := Exec(s, rest).value;
      Inv(t) && t.subs == s.subs && |t.copies| == |t.subs| && t.caller == Ready &&
      forall w :: 0 <= w < |t.workers| ==> t.workers[w].phase == Idle
    decreases Rank(s)
  {
    if Rank(s) == 0 {
      rest := [];
      AllIdle(s);
    } else {
      var a := Progress(s);
      StepInv(s, a);
      var more := Drains(Apply(s, a));
      ExecCons(s, a, more);
      rest := [a] + more;
    }
  }

  lemma AllIdle(s: State)
    requires Inv(s) && Rank(s) == 0
    ensures |s.copies| == |s.subs| && s.caller == Ready
    ensures forall w :: 0 <= w < |s.workers| ==> s.workers[w].phase == Idle
  {
    forall w | 0 <= w < |s.workers|
      ensures s.workers[w].phase == Idle
    {
      RankUpdate(s.workers, w, s.workers[w].(phase := Idle));
    }
    if |s.copies| < |s.subs| { SomeoneHoldsTheTurn(s); }
  }

  lemma {:induction false} ExecCons(s: State, a: Action, more: seq<Action>)
    requires Enabled(s, a)
    ensures Exec(s, [a] + more) == Exec(Apply(s, a), more)
    decreases |more|
  {
    hide Enabled, Apply;
    if more == [] {
      assert [a] + more == [a] && [a][..0] == [];
    } else {
      var n := |more| - 1;
      assert ([a] + more)[..n + 1] == [a] + more[..n];
      ExecCons(s, a, more[..n]);
    }
  }

  lemma {:induction false} ExecConcat(s: State, a: seq<Action>, b: seq<Action>)
    requires Exec(s, a).Some?
    ensures Exec(s, a + b) == Exec(Exec(s, a).value, b)
  {
    hide Enabled, Apply;
    if b == [] {
      assert a + b == a;
    } else {
      var n := |b| - 1;
      assert (a + b)[..|a| + n] == a + b[..n];
      ExecConcat(s, a, b[..n]);
    }
  }

  /** All work is done and the caller is outside. */
  ghost predicate Quiet(s: State)
  {
    Inv(s) && |s.copies| == |s.subs| && s.caller == Ready &&
    forall w :: 0 <= w < |s.workers| ==> s.workers[w].phase == Idle
  }

  lemma QuietAccepts(s: State, block: Block)
    requires Quiet(s)
    ensures Enabled(s, Submit(block)) && Inv(Apply(s, Submit(block)))
    ensures Apply(s, Submit(block)).subs == s.subs + [block]
  {
    CurrentWorker(s);
    hide Inv;
    StepInv(s, Submit(block));
  }

  lemma CurrentWorker(s: State)
    requires Inv(s) && s.caller == Ready
    ensures s.current < |s.workers|
  {
  }

  /** From every reachable state, any further blocks can all be handed in, one after the other, copied and encoded. */
  lemma {:induction false} AllHandedIn(s: State, blocks: seq<Block>) returns (actions: seq<Action>)
    requires Inv(s)
    ensures Exec(s, actions).Some? && Quiet(Exec(s, actions).value)
    ensures Exec(s, actions).value.subs == s.subs + blocks
  {
    hide Inv, Exec, Apply, Enabled;
    if blocks == [] {
      actions := Drains(s);
      assert s.subs + blocks == s.subs;
    } else {
      var n := |blocks| - 1;
      var before := AllHandedIn(s, blocks[..n]);
      var t := Exec(s, before).value;
      QuietAccepts(t, blocks[n]);
      var more := Drains(Apply(t, Submit(blocks[n])));
      ExecCons(t, Submit(blocks[n]), more);
      ExecConcat(s, before, [Submit(blocks[n])] + more);
      actions := before + ([Submit(blocks[n])] + more);
      assert s.subs + blocks[..n] + [blocks[n]] == s.subs + blocks;
    }
  }

  /** A worker no submission has reached yet is idle. */
  lemma Untouched(s: State)
    requires Inv(s) && s.caller == Ready && |s.subs| < s.threads
    ensures s.current == |s.subs| < |s.workers| && s.workers[s.current].phase == Idle
  {
    var m, n := |s.subs|, s.threads;
    DivisionUnique(m, n, 0, m);
    var x := s.workers[m];
    assert WorkerOk(x, m, n, s.init, s.subs, |s.copies|);
    hide Windows, Kept, Expected;
    if x.job >= 0 {
      DivisionUnique(x.job, n, 0, x.job);
      assert false;
    }
  }

  /** One block handed in, and the caller out again, while nothing else happens. */
  lemma HandIn(s: State, block: Block) returns (t: State)
    requires Inv(s) && s.caller == Ready && |s.subs| < s.threads
    ensures Exec(s, [Submit(block), Confirm(s.current), Resume]) == Some(t)
    ensures Inv(t) && t.caller == Ready && t.subs == s.subs + [block] && t.copies == s.copies && t.threads == s.threads
  {
    Untouched(s);
    var a, b, c := Submit(block), Confirm(s.current), Resume;
    var s1 := Apply(s, a);
    StepInv(s, a);
    var s2 := Apply(s1, b);
    StepInv(s1, b);
    t := Apply(s2, c);
    StepInv(s2, c);
    hide Inv;
    ExecCons(s, a, [b, c]);
    ExecCons(s1, b, [c]);
    ExecCons(s2, c, []);
    assert [a] + [b, c] == [a, b, c] && [b] + [c] == [b, c] && [c] + [] == [c];
  }

  /** The workers run side by side: as many blocks as there are workers can be handed in before any is copied. */
  lemma {:induction false} AllInFlight(n: nat, init: Tail, blocks: seq<Block>) returns (actions: seq<Action>)
    requires n > 1 && |blocks| <= n
    ensures Exec(Start(n, init), actions).Some?
    ensures var t := Exec(Start(n, init), actions).value;
      Inv(t) && t.caller == Ready && t.subs == blocks && t.copies == [] && t.threads == n
  {
    if blocks == [] {
      actions := [];
      StartInv(n, init);
    } else {
      var m := |blocks| - 1;
      var before := AllInFlight(n, init, blocks[..m]);
      var s := Exec(Start(n, init), before).value;
      hide Inv, Exec, Start;
      var t := HandIn(s, blocks[m]);
      var more := [Submit(blocks[m]), Confirm(s.current), Resume];
      ExecConcat(Start(n, init), before, more);
      actions := before + more;
      assert blocks[..m] + [blocks[m]] == blocks;
    }
  }
}
