/**
 Moving legacy files to their new places, by any number of processes at once.

 A process takes its list in order: does the source exist, does the destination exist, then move. A move is one
 rename, or across devices a copy followed by a removal. Each system call is a step, any step but a check may
 fail, and the processes interleave freely.
 */
module Migration {
  import opened Options

  type Files = map<string, seq<byte>>

  /** One legacy file and its new place; `cross` when they are on different devices. */
  datatype Job = Job(src: string, dest: string, cross: bool)

  datatype Stage =
    | CheckSource
    | CheckDest
    | Move
    | Truncate(data: seq<byte>)
    | Write(data: seq<byte>, offset: nat)
    | Remove

  datatype Proc = Proc(index: nat, stage: Stage, moved: set<nat>)

  datatype World = World(files: Files, procs: seq<Proc>)

  /** Process `pid` takes its next system call, which may fail; a write takes at most `size` bytes. */
  datatype Event = Event(pid: nat, fails: bool, size: nat)

  function Zeros(n: nat): seq<byte> {
    seq(n, _ => 0)
  }

  /** Write `chunk` at `offset`; a gap reads as zeros. */
  function WriteAt(file: seq<byte>, offset: nat, chunk: seq<byte>): seq<byte> {
    if |file| < offset then file + Zeros(offset - |file|) + chunk
    else file[..offset] + chunk + if |file| > offset + |chunk| then file[offset + |chunk|..] else []
  }

  function Next(p: Proc): Proc {
    p.(index := p.index + 1, stage := CheckSource)
  }

  function Moved(p: Proc): Proc {
    Next(p).(moved := p.moved + {p.index})
  }

  /** One step of one process: its files and itself afterwards. */
  function ProcStep(jobs: seq<Job>, files: Files, p: Proc, e: Event): (Files, Proc) {
    if p.index >= |jobs| then (files, p)
    else
      var job := jobs[p.index];
      match p.stage
      case CheckSource => (files, if job.src in files then p.(stage := CheckDest) else Next(p))
      case CheckDest => (files, if job.dest in files then Next(p) else p.(stage := Move))
      case Move =>
        if e.fails || job.src !in files then (files, Next(p))
        else if job.cross then (files, p.(stage := Truncate(files[job.src])))
        else ((files - {job.src})[job.dest := files[job.src]], Moved(p))
      case Truncate(data) =>
        if e.fails then (files, Next(p)) else (files[job.dest := []], p.(stage := Write(data, 0)))
      case Write(data, offset) =>
        if e.fails then (files, Next(p))
        else if offset >= |data| then (files, p.(stage := Remove))
        else
          var end := if offset + e.size < |data| then offset + e.size else |data|;
          var file := if job.dest in files then files[job.dest] else [];
          (files[job.dest := WriteAt(file, offset, data[offset..end])], p.(stage := Write(data, end)))
      case Remove =>
        if e.fails || job.src !in files then (files, Next(p)) else (files - {job.src}, Moved(p))
  }

  function Step(jobs: seq<Job>, w: World, e: Event): World {
    if e.pid >= |w.procs| then w
    else
      var (files, p) := ProcStep(jobs, w.files, w.procs[e.pid], e);
      World(files, w.procs[e.pid := p])
  }

  function Start(files: Files, count: nat): World {
    World(files, seq(count, _ => Proc(0, CheckSource, {})))
  }

  /** The world after the first `n` events from `w`. */
  function Run(jobs: seq<Job>, w: World, events: seq<Event>, n: nat): World
    requires n <= |events|
  {
    if n == 0 then w else Step(jobs, Run(jobs, w, events, n - 1), events[n - 1])
  }

  /** No two places named in the list coincide. */
  ghost predicate Distinct(jobs: seq<Job>) {
    && (forall i :: 0 <= i < |jobs| ==> jobs[i].src != jobs[i].dest)
    && forall i, j :: 0 <= i < j < |jobs| ==> {jobs[i].src, jobs[i].dest} !! {jobs[j].src, jobs[j].dest}
  }

  predicate SameAt(a: Files, b: Files, place: string) {
    (place in a <==> place in b) && (place in a ==> a[place] == b[place])
  }

  /** Only the process at job `k` touches its two places. */
  lemma OtherJobsKeepOut(jobs: seq<Job>, files: Files, p: Proc, e: Event, k: nat)
    requires Distinct(jobs) && k < |jobs| && p.index != k
    ensures var files' := ProcStep(jobs, files, p, e).0;
            SameAt(files', files, jobs[k].src) && SameAt(files', files, jobs[k].dest)
  {
    if p.index < |jobs| {
      if p.index < k {
        assert {jobs[p.index].src, jobs[p.index].dest} !! {jobs[k].src, jobs[k].dest};
      } else {
        assert {jobs[k].src, jobs[k].dest} !! {jobs[p.index].src, jobs[p.index].dest};
      }
      assert jobs[k].src in {jobs[k].src, jobs[k].dest} && jobs[k].dest in {jobs[k].src, jobs[k].dest};
      assert jobs[p.index].src in {jobs[p.index].src, jobs[p.index].dest};
      assert jobs[p.index].dest in {jobs[p.index].src, jobs[p.index].dest};
    }
  }

  function StageNumber(s: Stage): nat {
    match s
    case CheckSource => 0
    case CheckDest => 1
    case Move => 2
    case Truncate(_) => 3
    case Write(_, _) => 4
    case Remove => 5
  }

  /** The process is further on: at a later job, a later stage of it, or a later byte of its copy. */
  predicate IsFurther(p: Proc, p': Proc) {
    || p'.index > p.index
    || (p'.index == p.index && StageNumber(p'.stage) > StageNumber(p.stage))
    || (&& p'.index == p.index && p.stage.Write? && p'.stage.Write?
        && p'.stage.data == p.stage.data && p.stage.offset < p'.stage.offset <= |p.stage.data|)
  }

  /** A process with jobs left moves on at every call that makes progress, so alone it comes to its end. */
  lemma EveryStepAdvances(jobs: seq<Job>, files: Files, p: Proc, e: Event)
    requires p.index < |jobs| && 1 <= e.size
    ensures IsFurther(p, ProcStep(jobs, files, p, e).1)
    ensures ProcStep(jobs, files, p, e).1.index <= p.index + 1
  {
  }

  // ---------------------------------------------------------------------
  // Renames: any number of processes
  // ---------------------------------------------------------------------

  predicate Moves(files0: Files, job: Job) {
    job.src in files0 && job.dest !in files0
  }

  /** The job's bytes are where they were, or have gone whole to the destination. */
  predicate InPlace(files0: Files, files: Files, job: Job) {
    SameAt(files, files0, job.src) && SameAt(files, files0, job.dest)
  }

  predicate Arrived(files0: Files, files: Files, job: Job) {
    && Moves(files0, job)
    && job.src !in files && job.dest in files && files[job.dest] == files0[job.src]
  }

  /** The processes that report having moved job `k`. */
  function Movers(procs: seq<Proc>, k: nat): set<nat> {
    set i | 0 <= i < |procs| && k in procs[i].moved
  }

  /** A process about to move a job saw no destination, so there was none to begin with. */
  predicate ProcSane(files0: Files, jobs: seq<Job>, p: Proc, k: nat)
    requires k < |jobs|
  {
    && (k in p.moved ==> k < p.index)
    && (p.index == k ==> (p.stage == CheckSource || p.stage == CheckDest || p.stage == Move))
    && (p.index == k && p.stage == Move ==> jobs[k].dest !in files0)
  }

  ghost predicate Settled(files0: Files, jobs: seq<Job>, w: World, k: nat)
    requires k < |jobs|
  {
    && (forall i :: 0 <= i < |w.procs| ==> ProcSane(files0, jobs, w.procs[i], k))
    && (|| (InPlace(files0, w.files, jobs[k]) && Movers(w.procs, k) == {})
        || (Arrived(files0, w.files, jobs[k]) && |Movers(w.procs, k)| == 1))
  }

  /** One step of one process keeps job `k` settled; `moved` says whether this step moved it. */
  lemma SettledProcStep(files0: Files, jobs: seq<Job>, files: Files, p: Proc, e: Event, k: nat) returns (moved: bool)
    requires Distinct(jobs) && k < |jobs| && !jobs[k].cross
    requires ProcSane(files0, jobs, p, k)
    requires InPlace(files0, files, jobs[k]) || Arrived(files0, files, jobs[k])
    ensures var (files', p') := ProcStep(jobs, files, p, e);
            && ProcSane(files0, jobs, p', k)
            && (moved ==> InPlace(files0, files, jobs[k]) && Arrived(files0, files', jobs[k]) && k !in p.moved)
            && (!moved ==> SameAt(files', files, jobs[k].src) && SameAt(files', files, jobs[k].dest))
            && (k in p'.moved <==> k in p.moved || moved)
  {
    assert jobs[k].src != jobs[k].dest;
    if p.index != k {
      OtherJobsKeepOut(jobs, files, p, e, k);
    }
    moved := p.index == k && p.stage == Move && !e.fails && jobs[k].src in files;
  }

  lemma SettledStep(files0: Files, jobs: seq<Job>, w: World, e: Event, k: nat)
    requires Distinct(jobs) && k < |jobs| && !jobs[k].cross
    requires Settled(files0, jobs, w, k)
    ensures Settled(files0, jobs, Step(jobs, w, e), k)
  {
    if e.pid < |w.procs| {
      var w' := Step(jobs, w, e);
      assert ProcSane(files0, jobs, w.procs[e.pid], k);
      var moved := SettledProcStep(files0, jobs, w.files, w.procs[e.pid], e, k);
      assert Movers(w'.procs, k) == Movers(w.procs, k) + if moved then {e.pid} else {};
    }
  }

  /**
   In every interleaving of renames a destination that existed keeps its bytes, any other source's bytes are at
   exactly one of source and destination, and exactly one process reports a move that happened.
   */
  lemma {:induction false} RenamesNeverLoseOrDuplicate(
    jobs: seq<Job>, files0: Files, count: nat, events: seq<Event>, n: nat, k: nat)
    requires Distinct(jobs) && k < |jobs| && !jobs[k].cross && n <= |events|
    ensures var w := Run(jobs, Start(files0, count), events, n);
            && Settled(files0, jobs, w, k)
            && (jobs[k].dest in files0 ==> InPlace(files0, w.files, jobs[k]))
            && (Moves(files0, jobs[k]) ==> (jobs[k].src in w.files) != (jobs[k].dest in w.files))
            && |Movers(w.procs, k)| <= 1
  {
    if n == 0 {
      assert Movers(Start(files0, count).procs, k) == {};
    } else {
      RenamesNeverLoseOrDuplicate(jobs, files0, count, events, n - 1, k);
      SettledStep(files0, jobs, Run(jobs, Start(files0, count), events, n - 1), events[n - 1], k);
    }
  }

  /** A process that has passed a job leaves it moved. */
  ghost predicate PassedMeansArrived(files0: Files, jobs: seq<Job>, w: World, k: nat)
    requires k < |jobs|
  {
    forall i :: 0 <= i < |w.procs| && w.procs[i].index > k ==> Arrived(files0, w.files, jobs[k])
  }

  lemma PassedStep(files0: Files, jobs: seq<Job>, w: World, e: Event, k: nat)
    requires Distinct(jobs) && k < |jobs| && !jobs[k].cross && Moves(files0, jobs[k]) && !e.fails
    requires Settled(files0, jobs, w, k) && PassedMeansArrived(files0, jobs, w, k)
    ensures PassedMeansArrived(files0, jobs, Step(jobs, w, e), k)
  {
    if e.pid < |w.procs| {
      assert jobs[k].src != jobs[k].dest;
      assert ProcSane(files0, jobs, w.procs[e.pid], k);
      if w.procs[e.pid].index != k {
        OtherJobsKeepOut(jobs, w.files, w.procs[e.pid], e, k);
      }
    }
  }

  lemma {:induction false} PassedRenameArrived(
    jobs: seq<Job>, files0: Files, count: nat, events: seq<Event>, n: nat, k: nat)
    requires Distinct(jobs) && k < |jobs| && !jobs[k].cross && Moves(files0, jobs[k]) && n <= |events|
    requires forall e :: e in events ==> !e.fails
    ensures PassedMeansArrived(files0, jobs, Run(jobs, Start(files0, count), events, n), k)
  {
    if n > 0 {
      PassedRenameArrived(jobs, files0, count, events, n - 1, k);
      RenamesNeverLoseOrDuplicate(jobs, files0, count, events, n - 1, k);
      PassedStep(files0, jobs, Run(jobs, Start(files0, count), events, n - 1), events[n - 1], k);
    }
  }

  /** When no call fails, a rename that any one process has passed has happened, and one process reports it. */
  lemma UnfailingRenamesArrive(jobs: seq<Job>, files0: Files, count: nat, events: seq<Event>, k: nat, pid: nat)
    requires Distinct(jobs) && k < |jobs| && !jobs[k].cross && Moves(files0, jobs[k])
    requires forall e :: e in events ==> !e.fails
    requires var w := Run(jobs, Start(files0, count), events, |events|); pid < |w.procs| && w.procs[pid].index > k
    ensures var w := Run(jobs, Start(files0, count), events, |events|);
            Arrived(files0, w.files, jobs[k]) && |Movers(w.procs, k)| == 1
  {
    PassedRenameArrived(jobs, files0, count, events, |events|, k);
    RenamesNeverLoseOrDuplicate(jobs, files0, count, events, |events|, k);
  }

  // ---------------------------------------------------------------------
  // Copies across devices: one process
  // ---------------------------------------------------------------------

  /** What the only process knows about job `k` at its stage. */
  predicate CopySane(files0: Files, files: Files, job: Job, p: Proc, k: nat) {
    if p.index < k then InPlace(files0, files, job) && k !in p.moved
    else if p.index > k then
      && SourceOrCopy(files0, files, job)
      && (k in p.moved ==> Arrived(files0, files, job))
      && (k !in p.moved ==> SameAt(files, files0, job.src))
      && (job.dest in files0 ==> InPlace(files0, files, job))
    else
      && SameAt(files, files0, job.src) && k !in p.moved
      && match p.stage
         case CheckSource => SameAt(files, files0, job.dest)
         case CheckDest => SameAt(files, files0, job.dest)
         case Move => SameAt(files, files0, job.dest) && job.dest !in files0
         case Truncate(data) =>
           Moves(files0, job) && data == files0[job.src] && SameAt(files, files0, job.dest)
         case Write(data, offset) =>
           && Moves(files0, job) && data == files0[job.src] && offset <= |data|
           && job.dest in files && files[job.dest] == data[..offset]
         case Remove => Moves(files0, job) && job.dest in files && files[job.dest] == files0[job.src]
  }

  /** The source is intact, or is gone and the destination holds all its bytes. */
  predicate SourceOrCopy(files0: Files, files: Files, job: Job) {
    SameAt(files, files0, job.src) || Arrived(files0, files, job)
  }

  lemma CopyStep(files0: Files, jobs: seq<Job>, files: Files, p: Proc, e: Event, k: nat)
    requires Distinct(jobs) && k < |jobs| && jobs[k].cross
    requires CopySane(files0, files, jobs[k], p, k)
    ensures var (files', p') := ProcStep(jobs, files, p, e);
            CopySane(files0, files', jobs[k], p', k)
  {
    assert jobs[k].src != jobs[k].dest;
    if p.index != k {
      OtherJobsKeepOut(jobs, files, p, e, k);
    } else if p.stage.Write? && p.stage.offset < |p.stage.data| {
      var data, offset := p.stage.data, p.stage.offset;
      var end := if offset + e.size < |data| then offset + e.size else |data|;
      assert data[..offset] + data[offset..end] == data[..end];
    }
  }

  /** One process copying across devices removes the source only once the destination holds every byte. */
  lemma {:induction false} SourceRemovedOnlyAfterWholeCopy(
    jobs: seq<Job>, files0: Files, events: seq<Event>, n: nat, k: nat)
    requires Distinct(jobs) && k < |jobs| && jobs[k].cross && n <= |events|
    ensures var w := Run(jobs, Start(files0, 1), events, n);
            && |w.procs| == 1
            && CopySane(files0, w.files, jobs[k], w.procs[0], k)
            && SourceOrCopy(files0, w.files, jobs[k])
            && (jobs[k].dest in files0 ==> InPlace(files0, w.files, jobs[k]))
  {
    if n > 0 {
      SourceRemovedOnlyAfterWholeCopy(jobs, files0, events, n - 1, k);
      var w := Run(jobs, Start(files0, 1), events, n - 1);
      CopyStep(files0, jobs, w.files, w.procs[0], events[n - 1], k);
    }
  }

  // ---------------------------------------------------------------------
  // Copies across devices: two processes
  // ---------------------------------------------------------------------

  /**
   Both pass the checks; the first copies while the second opens the source, then removes it; the second truncates
   the copy and its write fails.
   */
  function Overlap(size: nat): seq<Event> {
    [Event(0, false, 0), Event(0, false, 0), Event(1, false, 0), Event(1, false, 0),
     Event(0, false, 0), Event(1, false, 0), Event(0, false, 0), Event(0, false, size),
     Event(0, false, 0), Event(0, false, 0), Event(1, false, 0), Event(1, true, 0)]
  }

  /** Two processes, both about to begin job `k`. */
  function Pair(files: Files, k: nat): World {
    World(files, [Proc(k, CheckSource, {}), Proc(k, CheckSource, {})])
  }

  lemma RunStep(jobs: seq<Job>, w0: World, events: seq<Event>, n: nat, w: World)
    requires n < |events| && Run(jobs, w0, events, n) == w
    ensures Run(jobs, w0, events, n + 1) == Step(jobs, w, events[n])
  {
  }

  /** The first half of the overlap: one process has begun its copy, the other holds the source open. */
  lemma OverlapCopies(jobs: seq<Job>, k: nat, files0: Files)
    requires k < |jobs| && jobs[k].cross && jobs[k].src != jobs[k].dest && Moves(files0, jobs[k])
    ensures var data := files0[jobs[k].src];
            Run(jobs, Pair(files0, k), Overlap(|data|), 7)
            == World(files0[jobs[k].dest := []], [Proc(k, Write(data, 0), {}), Proc(k, Truncate(data), {})])
  {
    var data, w0 := files0[jobs[k].src], Pair(files0, k);
    var es, p := Overlap(|data|), Proc(k, CheckSource, {});
    RunStep(jobs, w0, es, 0, w0);
    var procs1 := [p.(stage := CheckDest), p];
    assert Run(jobs, w0, es, 1) == World(files0, procs1);
    RunStep(jobs, w0, es, 1, World(files0, procs1));
    var procs2 := [p.(stage := Move), p];
    assert Run(jobs, w0, es, 2) == World(files0, procs2);
    RunStep(jobs, w0, es, 2, World(files0, procs2));
    var procs3 := [p.(stage := Move), p.(stage := CheckDest)];
    assert Run(jobs, w0, es, 3) == World(files0, procs3);
    RunStep(jobs, w0, es, 3, World(files0, procs3));
    var procs4 := [p.(stage := Move), p.(stage := Move)];
    assert Run(jobs, w0, es, 4) == World(files0, procs4);
    RunStep(jobs, w0, es, 4, World(files0, procs4));
    var procs5 := [p.(stage := Truncate(data)), p.(stage := Move)];
    assert Run(jobs, w0, es, 5) == World(files0, procs5);
    RunStep(jobs, w0, es, 5, World(files0, procs5));
    var procs6 := [p.(stage := Truncate(data)), p.(stage := Truncate(data))];
    assert Run(jobs, w0, es, 6) == World(files0, procs6);
    RunStep(jobs, w0, es, 6, World(files0, procs6));
  }

  /** The first process finishes its copy and is about to remove the source. */
  lemma OverlapFinishesCopy(jobs: seq<Job>, k: nat, files0: Files)
    requires k < |jobs| && jobs[k].cross && jobs[k].src != jobs[k].dest && Moves(files0, jobs[k])
    requires files0[jobs[k].src] != []
    ensures var data := files0[jobs[k].src];
            Run(jobs, Pair(files0, k), Overlap(|data|), 9)
            == World(files0[jobs[k].dest := data], [Proc(k, Remove, {}), Proc(k, Truncate(data), {})])
  {
    var job, data, w0 := jobs[k], files0[jobs[k].src], Pair(files0, k);
    var es, second := Overlap(|data|), Proc(k, Truncate(data), {});
    OverlapCopies(jobs, k, files0);
    var files7, procs7 := files0[job.dest := []], [Proc(k, Write(data, 0), {}), second];
    RunStep(jobs, w0, es, 7, World(files7, procs7));
    assert [] + data[0..|data|] + [] == data;
    assert files7[job.dest := data] == files0[job.dest := data];
    var procs8 := [Proc(k, Write(data, |data|), {}), second];
    assert Run(jobs, w0, es, 8) == World(files0[job.dest := data], procs8);
    RunStep(jobs, w0, es, 8, World(files0[job.dest := data], procs8));
  }

  /** The job's bytes are at neither place, and no process will still write them there. */
  predicate Lost(files0: Files, w: World, jobs: seq<Job>, k: nat)
    requires k < |jobs|
  {
    !SourceOrCopy(files0, w.files, jobs[k]) && forall i :: 0 <= i < |w.procs| ==> w.procs[i].index > k
  }

  lemma OverlapLoses(jobs: seq<Job>, k: nat, files0: Files)
    requires k < |jobs| && jobs[k].cross && jobs[k].src != jobs[k].dest && Moves(files0, jobs[k])
    requires files0[jobs[k].src] != []
    ensures var es := Overlap(|files0[jobs[k].src]|); Lost(files0, Run(jobs, Pair(files0, k), es, |es|), jobs, k)
  {
    var job, data, w0 := jobs[k], files0[jobs[k].src], Pair(files0, k);
    var es, second := Overlap(|data|), Proc(k, Truncate(data), {});
    OverlapFinishesCopy(jobs, k, files0);
    var files9, first := files0[job.dest := data], Moved(Proc(k, Remove, {}));
    RunStep(jobs, w0, es, 9, World(files9, [Proc(k, Remove, {}), second]));
    var files10 := files9 - {job.src};
    assert Run(jobs, w0, es, 10) == World(files10, [first, second]);
    RunStep(jobs, w0, es, 10, World(files10, [first, second]));
    var files11 := files10[job.dest := []];
    assert Run(jobs, w0, es, 11) == World(files11, [first, Proc(k, Write(data, 0), {})]);
    RunStep(jobs, w0, es, 11, World(files11, [first, Proc(k, Write(data, 0), {})]));
    assert Run(jobs, w0, es, 12) == World(files11, [first, Next(second)]);
  }

  lemma {:induction false} RunAppend(jobs: seq<Job>, w: World, a: seq<Event>, b: seq<Event>, n: nat)
    requires n <= |b|
    ensures Run(jobs, w, a + b, |a| + n) == Run(jobs, Run(jobs, w, a, |a|), b, n)
  {
    if n == 0 {
      RunOfPrefix(jobs, w, a, b, |a|);
    } else {
      RunAppend(jobs, w, a, b, n - 1);
    }
  }

  lemma {:induction false} RunOfPrefix(jobs: seq<Job>, w: World, a: seq<Event>, b: seq<Event>, n: nat)
    requires n <= |a|
    ensures Run(jobs, w, a + b, n) == Run(jobs, w, a, n)
  {
    if n > 0 {
      RunOfPrefix(jobs, w, a, b, n - 1);
    }
  }

  /** A process can pass over a job with nothing moved: a check turns it away, or its move fails. */
  lemma SkipJob(jobs: seq<Job>, w: World, pid: nat, i: nat) returns (events: seq<Event>)
    requires pid < |w.procs| && w.procs[pid] == Proc(i, CheckSource, {}) && i < |jobs|
    ensures Run(jobs, w, events, |events|) == w.(procs := w.procs[pid := Proc(i + 1, CheckSource, {})])
  {
    var e, p := Event(pid, true, 0), Proc(i, CheckSource, {});
    if jobs[i].src !in w.files {
      events := [e];
      RunStep(jobs, w, events, 0, w);
    } else {
      var w1 := w.(procs := w.procs[pid := p.(stage := CheckDest)]);
      events := [e, e];
      RunStep(jobs, w, events, 0, w);
      assert Run(jobs, w, events, 1) == w1;
      RunStep(jobs, w, events, 1, w1);
      if jobs[i].dest !in w.files {
        var w2 := w.(procs := w.procs[pid := p.(stage := Move)]);
        assert Step(jobs, w1, e) == w2;
        RunOfPrefix(jobs, w, events, [e], 2);
        events := events + [e];
        RunStep(jobs, w, events, 2, w2);
      }
    }
  }

  lemma {:induction false} SkipTo(jobs: seq<Job>, w: World, pid: nat, k: nat) returns (events: seq<Event>)
    requires pid < |w.procs| && w.procs[pid] == Proc(0, CheckSource, {}) && k <= |jobs|
    ensures Run(jobs, w, events, |events|) == w.(procs := w.procs[pid := Proc(k, CheckSource, {})])
  {
    if k == 0 {
      events := [];
    } else {
      var before := SkipTo(jobs, w, pid, k - 1);
      var w' := w.(procs := w.procs[pid := Proc(k - 1, CheckSource, {})]);
      var last := SkipJob(jobs, w', pid, k - 1);
      RunAppend(jobs, w, before, last, |last|);
      events := before + last;
    }
  }

  /** Two processes can both arrive at job `k` with every file where it was. */
  lemma {:induction false} PairArrives(jobs: seq<Job>, files0: Files, k: nat) returns (events: seq<Event>)
    requires k <= |jobs|
    ensures Run(jobs, Start(files0, 2), events, |events|) == Pair(files0, k)
  {
    var w0 := Start(files0, 2);
    var first := SkipTo(jobs, w0, 0, k);
    var w1 := w0.(procs := w0.procs[0 := Proc(k, CheckSource, {})]);
    var second := SkipTo(jobs, w1, 1, k);
    RunAppend(jobs, w0, first, second, |second|);
    events := first + second;
  }

  /** Two processes that take these system calls leave job `k` lost. */
  ghost predicate Loses(jobs: seq<Job>, files0: Files, k: nat, events: seq<Event>)
    requires k < |jobs|
  {
    Lost(files0, Run(jobs, Start(files0, 2), events, |events|), jobs, k)
  }

  /** Two processes across devices can lose a non-empty file's bytes for good, both having finished with it. */
  lemma {:induction false} OverlappingCopiesLoseBytes(jobs: seq<Job>, k: nat, files0: Files)
    requires k < |jobs| && jobs[k].cross && jobs[k].src != jobs[k].dest && Moves(files0, jobs[k])
    requires files0[jobs[k].src] != []
    ensures exists events :: Loses(jobs, files0, k, events)
  {
    var before := PairArrives(jobs, files0, k);
    var overlap := Overlap(|files0[jobs[k].src]|);
    OverlapLoses(jobs, k, files0);
    RunAppend(jobs, Start(files0, 2), before, overlap, |overlap|);
    assert Loses(jobs, files0, k, before + overlap);
  }

  // ---------------------------------------------------------------------
  // Copies across devices: any number of processes, no failing call
  // ---------------------------------------------------------------------

  /** Process `p` is still to write byte `j` of job `k`. */
  predicate StillWrites(p: Proc, k: nat, j: nat) {
    p.index == k && p.stage.Write? && p.stage.offset <= j
  }

  /** Process `p` is in the middle of job `k`'s copy. */
  predicate Busy(p: Proc, k: nat) {
    p.index == k && (p.stage.Write? || p.stage.Remove?)
  }

  predicate ByteRight(file: seq<byte>, data: seq<byte>, j: nat) {
    j < |file| && j < |data| && file[j] == data[j]
  }

  ghost predicate SomeStillWrites(procs: seq<Proc>, k: nat, j: nat) {
    exists i :: 0 <= i < |procs| && StillWrites(procs[i], k, j)
  }

  ghost predicate SomeBusy(procs: seq<Proc>, k: nat) {
    exists i :: 0 <= i < |procs| && Busy(procs[i], k)
  }

  /** Each byte of the copy is right, or some process is still to write it. */
  ghost predicate Mending(file: seq<byte>, data: seq<byte>, procs: seq<Proc>, k: nat) {
    && |file| <= |data|
    && forall j: nat :: j < |data| ==> ByteRight(file, data, j) || SomeStillWrites(procs, k, j)
  }

  /** A process copies the source's own bytes, and has passed the job or begun to write only with the copy there. */
  predicate CopierSane(files: Files, job: Job, data: seq<byte>, p: Proc, k: nat) {
    && (p.index > k ==> job.dest in files)
    && (p.index == k ==>
          match p.stage
          case Truncate(d) => d == data
          case Write(d, offset) => d == data && offset <= |data| && job.dest in files
          case Remove => job.dest in files
          case _ => true)
  }

  predicate SourceSane(files: Files, job: Job, data: seq<byte>) {
    (job.src in files ==> files[job.src] == data) && (job.src in files || job.dest in files)
  }

  ghost predicate Copying(files: Files, job: Job, data: seq<byte>, procs: seq<Proc>, k: nat) {
    && SourceSane(files, job, data)
    && (forall i :: 0 <= i < |procs| ==> CopierSane(files, job, data, procs[i], k))
    && (job.dest in files ==> Mending(files[job.dest], data, procs, k))
    && (job.src in files && job.dest in files ==> SomeBusy(procs, k))
  }

  /** A process that was not to write the byte may do anything: the others are as they were. */
  lemma OthersStillWrite(procs: seq<Proc>, pid: nat, p': Proc, k: nat, j: nat)
    requires pid < |procs| && !StillWrites(procs[pid], k, j) && SomeStillWrites(procs, k, j)
    ensures SomeStillWrites(procs[pid := p'], k, j)
  {
    var i :| 0 <= i < |procs| && StillWrites(procs[i], k, j);
    assert procs[pid := p'][i] == procs[i];
  }

  lemma OthersBusy(procs: seq<Proc>, pid: nat, p': Proc, k: nat)
    requires pid < |procs| && SomeBusy(procs, k) && (Busy(procs[pid], k) ==> Busy(p', k))
    ensures SomeBusy(procs[pid := p'], k)
  {
    var i :| 0 <= i < |procs| && Busy(procs[i], k);
    assert Busy(procs[pid := p'][i], k);
  }

  lemma MendingLasts(file: seq<byte>, data: seq<byte>, procs: seq<Proc>, pid: nat, p': Proc, k: nat)
    requires pid < |procs| && Mending(file, data, procs, k)
    requires forall j: nat :: j < |data| && StillWrites(procs[pid], k, j) ==> StillWrites(p', k, j)
    ensures Mending(file, data, procs[pid := p'], k)
  {
    forall j: nat | j < |data| && !ByteRight(file, data, j) ensures SomeStillWrites(procs[pid := p'], k, j) {
      if StillWrites(procs[pid], k, j) {
        assert procs[pid := p'][pid] == p';
      } else {
        OthersStillWrite(procs, pid, p', k, j);
      }
    }
  }

  /** Truncating makes every byte one that this process is still to write. */
  lemma TruncatingMends(data: seq<byte>, procs: seq<Proc>, pid: nat, p': Proc, k: nat)
    requires pid < |procs| && p'.index == k && p'.stage == Write(data, 0)
    ensures Mending([], data, procs[pid := p'], k) && SomeBusy(procs[pid := p'], k)
  {
    assert procs[pid := p'][pid] == p';
  }

  /** Writing one chunk puts its bytes right and spoils only bytes that another process is still to write. */
  lemma WritingMends(file: seq<byte>, data: seq<byte>, procs: seq<Proc>, pid: nat, p': Proc, k: nat, end: nat)
    requires pid < |procs| && Mending(file, data, procs, k)
    requires procs[pid].index == k && procs[pid].stage.Write? && procs[pid].stage.offset <= end <= |data|
    requires p'.index == k && p'.stage == Write(data, end)
    ensures var offset := procs[pid].stage.offset;
            Mending(WriteAt(file, offset, data[offset..end]), data, procs[pid := p'], k)
  {
    var offset := procs[pid].stage.offset;
    var file' := WriteAt(file, offset, data[offset..end]);
    assert forall j: nat :: offset <= j < end ==> ByteRight(file', data, j);
    forall j: nat | j < |data| && !ByteRight(file', data, j) ensures SomeStillWrites(procs[pid := p'], k, j) {
      if j < offset {
        assert !ByteRight(file, data, j);
        OthersStillWrite(procs, pid, p', k, j);
      } else {
        assert procs[pid := p'][pid] == p';
      }
    }
  }

  /** A step outside the copy: a check, the opening of the source, or anything to do with another job. */
  lemma QuietCopyStep(jobs: seq<Job>, files: Files, data: seq<byte>, procs: seq<Proc>, e: Event, k: nat)
    requires Distinct(jobs) && k < |jobs| && jobs[k].cross && e.pid < |procs| && !e.fails
    requires Copying(files, jobs[k], data, procs, k)
    requires var p := procs[e.pid]; p.index == k ==> p.stage == CheckSource || p.stage == CheckDest || p.stage == Move
    ensures var (files', p') := ProcStep(jobs, files, procs[e.pid], e);
            Copying(files', jobs[k], data, procs[e.pid := p'], k)
  {
    var p := procs[e.pid];
    var (files', p') := ProcStep(jobs, files, p, e);
    assert CopierSane(files, jobs[k], data, p, k);
    if p.index != k {
      OtherJobsKeepOut(jobs, files, p, e, k);
    }
    if jobs[k].dest in files {
      MendingLasts(files[jobs[k].dest], data, procs, e.pid, p', k);
      if jobs[k].src in files {
        OthersBusy(procs, e.pid, p', k);
      }
    }
  }

  lemma BusyCopyStep(jobs: seq<Job>, files: Files, data: seq<byte>, procs: seq<Proc>, e: Event, k: nat)
    requires k < |jobs| && jobs[k].src != jobs[k].dest && e.pid < |procs| && !e.fails
    requires Copying(files, jobs[k], data, procs, k)
    requires var p := procs[e.pid]; p.index == k && (p.stage.Truncate? || p.stage.Write? || p.stage.Remove?)
    ensures var (files', p') := ProcStep(jobs, files, procs[e.pid], e);
            Copying(files', jobs[k], data, procs[e.pid := p'], k)
  {
    var p, job := procs[e.pid], jobs[k];
    var (files', p') := ProcStep(jobs, files, p, e);
    assert CopierSane(files, job, data, p, k);
    match p.stage {
      case Truncate(_) =>
        TruncatingMends(data, procs, e.pid, p', k);
      case Write(_, offset) =>
        if offset < |data| {
          WritingMends(files[job.dest], data, procs, e.pid, p', k, p'.stage.offset);
        } else {
          MendingLasts(files[job.dest], data, procs, e.pid, p', k);
        }
        assert Busy(procs[e.pid := p'][e.pid], k);
      case Remove =>
        MendingLasts(files[job.dest], data, procs, e.pid, p', k);
    }
  }

  lemma {:induction false} CopyingHolds(jobs: seq<Job>, files0: Files, count: nat, events: seq<Event>, n: nat, k: nat)
    requires Distinct(jobs) && k < |jobs| && jobs[k].cross && Moves(files0, jobs[k]) && n <= |events|
    requires forall e :: e in events ==> !e.fails
    ensures var w := Run(jobs, Start(files0, count), events, n);
            |w.procs| == count && Copying(w.files, jobs[k], files0[jobs[k].src], w.procs, k)
  {
    if n > 0 {
      CopyingHolds(jobs, files0, count, events, n - 1, k);
      var w, e := Run(jobs, Start(files0, count), events, n - 1), events[n - 1];
      if e.pid < |w.procs| {
        var p := w.procs[e.pid];
        if p.index == k && (p.stage.Truncate? || p.stage.Write? || p.stage.Remove?) {
          BusyCopyStep(jobs, w.files, files0[jobs[k].src], w.procs, e, k);
        } else {
          QuietCopyStep(jobs, w.files, files0[jobs[k].src], w.procs, e, k);
        }
      }
    }
  }

  /** A source that is there was removed by nobody; one that is gone was removed, and reported, by one process. */
  ghost predicate OneRemoved(job: Job, w: World, k: nat) {
    && (forall i :: 0 <= i < |w.procs| ==> (k in w.procs[i].moved ==> w.procs[i].index > k))
    && |Movers(w.procs, k)| == if job.src in w.files then 0 else 1
  }

  lemma OneRemovedStep(jobs: seq<Job>, w: World, e: Event, k: nat)
    requires Distinct(jobs) && k < |jobs| && jobs[k].cross && OneRemoved(jobs[k], w, k)
    ensures OneRemoved(jobs[k], Step(jobs, w, e), k)
  {
    if e.pid < |w.procs| {
      var p, w' := w.procs[e.pid], Step(jobs, w, e);
      assert jobs[k].src != jobs[k].dest;
      assert k in p.moved ==> p.index > k;
      if p.index != k {
        OtherJobsKeepOut(jobs, w.files, p, e, k);
      }
      var removed := p.index == k && p.stage == Remove && !e.fails && jobs[k].src in w.files;
      assert Movers(w'.procs, k) == Movers(w.procs, k) + if removed then {e.pid} else {};
    }
  }

  lemma {:induction false} OneProcessRemoves(
    jobs: seq<Job>, files0: Files, count: nat, events: seq<Event>, n: nat, k: nat)
    requires Distinct(jobs) && k < |jobs| && jobs[k].cross && jobs[k].src in files0 && n <= |events|
    ensures OneRemoved(jobs[k], Run(jobs, Start(files0, count), events, n), k)
  {
    if n == 0 {
      assert Movers(Start(files0, count).procs, k) == {};
    } else {
      OneProcessRemoves(jobs, files0, count, events, n - 1, k);
      OneRemovedStep(jobs, Run(jobs, Start(files0, count), events, n - 1), events[n - 1], k);
    }
  }

  /**
   When no call fails, any number of processes that have all passed a job copied across devices leave it arrived: the
   source gone and the destination whole, however their copies overlapped; and one process reports it.
   */
  lemma UnfailingCopiesArrive(jobs: seq<Job>, files0: Files, count: nat, events: seq<Event>, k: nat)
    requires Distinct(jobs) && k < |jobs| && jobs[k].cross && Moves(files0, jobs[k]) && count > 0
    requires forall e :: e in events ==> !e.fails
    requires var w := Run(jobs, Start(files0, count), events, |events|);
             forall i :: 0 <= i < |w.procs| ==> w.procs[i].index > k
    ensures var w := Run(jobs, Start(files0, count), events, |events|);
            Arrived(files0, w.files, jobs[k]) && |Movers(w.procs, k)| == 1
  {
    OneProcessRemoves(jobs, files0, count, events, |events|, k);
    var w, job, data := Run(jobs, Start(files0, count), events, |events|), jobs[k], files0[jobs[k].src];
    CopyingHolds(jobs, files0, count, events, |events|, k);
    assert CopierSane(w.files, job, data, w.procs[0], k);
    var file := w.files[job.dest];
    assert forall j: nat :: j < |data| ==> ByteRight(file, data, j);
    assert |data| > 0 ==> ByteRight(file, data, |data| - 1);
    forall j: nat | j < |data| ensures j < |file| && file[j] == data[j] {
      assert ByteRight(file, data, j);
    }
    assert file == data;
  }

  // ---------------------------------------------------------------------
  // Empty files and files that stay
  // ---------------------------------------------------------------------

  /** Whatever an empty file's copies do, it is at its source or at its destination. */
  predicate EmptySane(files0: Files, files: Files, job: Job) {
    && Moves(files0, job) && files0[job.src] == []
    && (job.src in files ==> files[job.src] == [])
    && (job.dest in files ==> files[job.dest] == [])
    && (job.src in files || job.dest in files)
  }

  predicate EmptyProcSane(files: Files, job: Job, p: Proc, k: nat) {
    p.index == k ==>
      match p.stage
      case Truncate(data) => data == []
      case Write(data, offset) => data == [] && job.dest in files
      case Remove => job.dest in files
      case _ => true
  }

  lemma EmptyStep(files0: Files, jobs: seq<Job>, files: Files, p: Proc, e: Event, k: nat)
    requires Distinct(jobs) && k < |jobs|
    requires EmptySane(files0, files, jobs[k]) && EmptyProcSane(files, jobs[k], p, k)
    ensures var (files', p') := ProcStep(jobs, files, p, e);
            && EmptySane(files0, files', jobs[k]) && EmptyProcSane(files', jobs[k], p', k)
            && (jobs[k].dest in files ==> jobs[k].dest in files')
  {
    assert jobs[k].src != jobs[k].dest;
    if p.index != k {
      OtherJobsKeepOut(jobs, files, p, e, k);
    }
  }

  lemma {:induction false} EmptyFileIsKept(
    jobs: seq<Job>, files0: Files, count: nat, events: seq<Event>, n: nat, k: nat)
    requires Distinct(jobs) && k < |jobs| && n <= |events|
    requires Moves(files0, jobs[k]) && files0[jobs[k].src] == []
    ensures var w := Run(jobs, Start(files0, count), events, n);
            && EmptySane(files0, w.files, jobs[k])
            && forall i :: 0 <= i < |w.procs| ==> EmptyProcSane(w.files, jobs[k], w.procs[i], k)
  {
    if n > 0 {
      EmptyFileIsKept(jobs, files0, count, events, n - 1, k);
      var w, e := Run(jobs, Start(files0, count), events, n - 1), events[n - 1];
      if e.pid < |w.procs| {
        EmptyStep(files0, jobs, w.files, w.procs[e.pid], e, k);
      }
    }
  }

  /** A process never gets as far as moving a job whose source is missing or whose destination exists. */
  predicate StaysSane(files0: Files, job: Job, p: Proc, k: nat) {
    p.index == k ==> p.stage == CheckSource || (p.stage == CheckDest && job.src in files0)
  }

  lemma {:induction false} OtherFilesStay(jobs: seq<Job>, files0: Files, count: nat, events: seq<Event>, n: nat, k: nat)
    requires Distinct(jobs) && k < |jobs| && n <= |events| && !Moves(files0, jobs[k])
    ensures var w := Run(jobs, Start(files0, count), events, n);
            && InPlace(files0, w.files, jobs[k])
            && forall i :: 0 <= i < |w.procs| ==> StaysSane(files0, jobs[k], w.procs[i], k)
  {
    if n > 0 {
      OtherFilesStay(jobs, files0, count, events, n - 1, k);
      var w, e := Run(jobs, Start(files0, count), events, n - 1), events[n - 1];
      if e.pid < |w.procs| {
        assert StaysSane(files0, jobs[k], w.procs[e.pid], k);
        if w.procs[e.pid].index != k {
          OtherJobsKeepOut(jobs, w.files, w.procs[e.pid], e, k);
        }
      }
    }
  }

  /** Every interleaving of any number of processes leaves each job's bytes at source or whole at destination. */
  ghost predicate SafeInEveryRun(jobs: seq<Job>, files0: Files) {
    forall count: nat, events: seq<Event>, k: nat ::
      k < |jobs| ==> SourceOrCopy(files0, Run(jobs, Start(files0, count), events, |events|).files, jobs[k])
  }

  /** What there is to move across devices is empty. */
  predicate CopiesNothing(jobs: seq<Job>, files0: Files) {
    forall k :: 0 <= k < |jobs| && Moves(files0, jobs[k]) ==> !jobs[k].cross || files0[jobs[k].src] == []
  }

  /** A list is safe from every interleaving exactly when each move is a rename or of an empty file. */
  lemma SafeForAllProcessesIffRename(jobs: seq<Job>, files0: Files)
    requires Distinct(jobs)
    ensures SafeInEveryRun(jobs, files0) <==> CopiesNothing(jobs, files0)
  {
    if CopiesNothing(jobs, files0) {
      forall count: nat, events: seq<Event>, k: nat | k < |jobs|
        ensures SourceOrCopy(files0, Run(jobs, Start(files0, count), events, |events|).files, jobs[k])
      {
        JobIsSafe(jobs, files0, count, events, k);
      }
    } else {
      var k :| 0 <= k < |jobs| && Moves(files0, jobs[k]) && jobs[k].cross && files0[jobs[k].src] != [];
      OverlappingCopiesLoseBytes(jobs, k, files0);
      var events :| Loses(jobs, files0, k, events);
      assert !SourceOrCopy(files0, Run(jobs, Start(files0, 2), events, |events|).files, jobs[k]);
    }
  }

  lemma JobIsSafe(jobs: seq<Job>, files0: Files, count: nat, events: seq<Event>, k: nat)
    requires Distinct(jobs) && k < |jobs|
    requires Moves(files0, jobs[k]) ==> !jobs[k].cross || files0[jobs[k].src] == []
    ensures SourceOrCopy(files0, Run(jobs, Start(files0, count), events, |events|).files, jobs[k])
  {
    if !Moves(files0, jobs[k]) {
      OtherFilesStay(jobs, files0, count, events, |events|, k);
    } else if jobs[k].cross {
      EmptyFileIsKept(jobs, files0, count, events, |events|, k);
    } else {
      RenamesNeverLoseOrDuplicate(jobs, files0, count, events, |events|, k);
    }
  }

  // ---------------------------------------------------------------------
  // The routine itself, run alone
  // ---------------------------------------------------------------------

  /** The files; on a reliable filesystem no call fails, on others any may. */
  class Tree {
    const reliable: bool
    var files: Files

    constructor (files: Files, reliable: bool)
      ensures this.files == files && this.reliable == reliable
    {
      this.files, this.reliable := files, reliable;
    }

    method Fails() returns (fails: bool)
      ensures reliable ==> !fails
    {
      var chance: bool := *;
      fails := !reliable && chance;
    }
  }

  /** Rename, or copy and remove across devices; any other failure leaves the source alone. */
  method MoveFile(tree: Tree, job: Job) returns (ok: bool)
    requires job.src != job.dest
    modifies tree
    ensures ok ==> job.src in old(tree.files)
                   && tree.files == (old(tree.files) - {job.src})[job.dest := old(tree.files)[job.src]]
    ensures tree.reliable ==> (ok <==> job.src in old(tree.files))
    ensures !ok ==> SameAt(tree.files, old(tree.files), job.src)
    ensures !ok && !job.cross ==> tree.files == old(tree.files)
    ensures forall f :: f != job.src && f != job.dest ==> SameAt(tree.files, old(tree.files), f)
  {
    var fails := tree.Fails();
    if fails || job.src !in tree.files {
      return false;
    }
    var data := tree.files[job.src];
    if !job.cross {
      tree.files := (tree.files - {job.src})[job.dest := data];
      return true;
    }
    tree.files := tree.files[job.dest := []];
    var offset: nat := 0;
    while offset < |data|
      invariant offset <= |data|
      invariant tree.files == old(tree.files)[job.dest := data[..offset]]
    {
      fails := tree.Fails();
      if fails {
        return false;
      }
      var size: nat :| 1 <= size;
      offset := if offset + size < |data| then offset + size else |data|;
      tree.files := tree.files[job.dest := data[..offset]];
    }
    fails := tree.Fails();
    if fails {
      return false;
    }
    assert data[..offset] == data;
    tree.files := tree.files - {job.src};
    return true;
  }

  /** The first `i` jobs are dealt with, the others are as they were. */
  ghost predicate Progress(files0: Files, files: Files, jobs: seq<Job>, i: nat, movedAny: bool, reliable: bool) {
    && i <= |jobs|
    && (forall k :: 0 <= k < i && reliable && Moves(files0, jobs[k]) ==> Arrived(files0, files, jobs[k]))
    && (forall k :: 0 <= k < i ==> SourceOrCopy(files0, files, jobs[k]))
    && (forall k :: 0 <= k < i && jobs[k].dest in files0 ==> InPlace(files0, files, jobs[k]))
    && (forall k :: i <= k < |jobs| ==> InPlace(files0, files, jobs[k]))
    && (movedAny <==> exists k :: 0 <= k < i && Arrived(files0, files, jobs[k]))
  }

  /** One job more: skipped, moved, or failed with its source intact. */
  lemma ProgressStep(files0: Files, files: Files, files': Files, jobs: seq<Job>, i: nat, movedAny: bool, ok: bool,
                     reliable: bool)
    requires Distinct(jobs) && i < |jobs| && Progress(files0, files, jobs, i, movedAny, reliable)
    requires reliable && Moves(files0, jobs[i]) ==> ok
    requires forall k :: 0 <= k < |jobs| && k != i ==>
               SameAt(files', files, jobs[k].src) && SameAt(files', files, jobs[k].dest)
    requires ok ==> Arrived(files0, files', jobs[i])
    requires !ok ==>
               && SameAt(files', files0, jobs[i].src)
               && (jobs[i].dest in files0 ==> InPlace(files0, files', jobs[i]))
    ensures Progress(files0, files', jobs, i + 1, movedAny || ok, reliable)
  {
    forall k | 0 <= k < i ensures Arrived(files0, files', jobs[k]) <==> Arrived(files0, files, jobs[k]) {
    }
    if !ok {
      assert !Arrived(files0, files', jobs[i]);
    }
  }

  /** Move each job whose source exists and whose destination does not; says whether any move succeeded. */
  method MigrateLayout(tree: Tree, jobs: seq<Job>) returns (movedAny: bool)
    requires Distinct(jobs)
    modifies tree
    ensures forall k :: 0 <= k < |jobs| ==> SourceOrCopy(old(tree.files), tree.files, jobs[k])
    ensures forall k :: 0 <= k < |jobs| && jobs[k].dest in old(tree.files) ==>
              InPlace(old(tree.files), tree.files, jobs[k])
    ensures movedAny <==> exists k :: 0 <= k < |jobs| && Arrived(old(tree.files), tree.files, jobs[k])
    ensures tree.reliable ==>
              forall k :: 0 <= k < |jobs| && Moves(old(tree.files), jobs[k]) ==>
                Arrived(old(tree.files), tree.files, jobs[k])
  {
    movedAny := false;
    var i := 0;
    while i < |jobs|
      invariant 0 <= i && Progress(old(tree.files), tree.files, jobs, i, movedAny, tree.reliable)
    {
      var job := jobs[i];
      ghost var before := tree.files;
      assert InPlace(old(tree.files), before, jobs[i]);
      var ok := false;
      if job.src in tree.files && job.dest !in tree.files {
        ok := MoveFile(tree, job);
        forall k | 0 <= k < |jobs| && k != i
          ensures SameAt(tree.files, before, jobs[k].src) && SameAt(tree.files, before, jobs[k].dest)
        {
          PlacesDiffer(jobs, i, k);
        }
      }
      ProgressStep(old(tree.files), before, tree.files, jobs, i, movedAny, ok, tree.reliable);
      if ok {
        movedAny := true;
      }
      i := i + 1;
    }
  }

  lemma PlacesDiffer(jobs: seq<Job>, i: nat, k: nat)
    requires Distinct(jobs) && i < |jobs| && k < |jobs| && i != k
    ensures jobs[k].src != jobs[i].src && jobs[k].src != jobs[i].dest
    ensures jobs[k].dest != jobs[i].src && jobs[k].dest != jobs[i].dest
  {
    var a, b := if i < k then i else k, if i < k then k else i;
    assert {jobs[a].src, jobs[a].dest} !! {jobs[b].src, jobs[b].dest};
    assert jobs[a].src in {jobs[a].src, jobs[a].dest} && jobs[a].dest in {jobs[a].src, jobs[a].dest};
    assert jobs[b].src in {jobs[b].src, jobs[b].dest} && jobs[b].dest in {jobs[b].src, jobs[b].dest};
  }
}
