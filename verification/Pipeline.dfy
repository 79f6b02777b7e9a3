/** The goroutines that write a backup set: the TAR producer, the data
    encryption of the main goroutine and the manifest function, joined by two
    pipes and two channels, and the part files they create; what holds in every
    interleaving and with a failure at any point. */
module Pipeline {
  import opened Wrappers
  import opened Binary
  import opened Naming
  import opened Commit

  /** The set, and what the producer writes into the first pipe and the manifest
      function into the second, piece by piece. */
  datatype Job = Job(entry: BackupEntry, chunks: seq<Bytes>, lines: seq<Bytes>)

  function Joined(pieces: seq<Bytes>): Bytes {
    if pieces == [] then [] else Joined(pieces[..|pieces| - 1]) + pieces[|pieces| - 1]
  }

  // ------------------------------------------------------------------------- goroutines

  /** BuildTar and what follows it: about to write piece i, blocked in that write,
      then closing the pipe and sending its result. */
  datatype Producer = Building(i: nat) | Offering(i: nat) | Ending(failed: bool) | Closed(failed: bool) | Sent(failed: bool)

  /** errManifestStopped is told apart from every other error. */
  datatype FnError = NoError | Stopped | Other

  /** The function that waits for the producer's result and encodes the manifest. */
  datatype ManifestFn =
    | NotStarted | Awaiting | Encoding(i: nat) | OfferingLine(i: nat)
    | Leaving(e: FnError) | LineClosed(e: FnError) | LineSent(e: FnError)

  /** setwriter.Write, and container.Write inside it. */
  datatype Main =
    | Header | DataRead | DataWrite | DataFinal | Spawning
    | ManifestRead | ManifestWrite | ManifestFinal | ClosingReader(failed: bool) | AwaitingFn(failed: bool) | Trailer
    | Returned(failed: bool) | Joining(failed: bool) | Flushing(failed: bool) | Deciding(failed: bool)
    | Removing(i: nat) | Failed | Finalizing

  /** `paths` are the parts that the split writer has created so far, `files` the
      names in the backup directory, `unremoved` the parts that os.Remove refused. */
  datatype World = World(
    producer: Producer, fn: ManifestFn, main: Main,
    dataClosed: bool, manifestClosed: bool,
    tarResult: Option<bool>, fnResult: Option<FnError>,
    tarDone: bool, tarFailed: bool, taken: nat,
    data: Bytes, manifest: Bytes,
    paths: seq<string>, files: set<string>, unremoved: set<string>)

  function Start(files: set<string>): World {
    World(Building(0), NotStarted, Header, false, false, None, None, false, false, 0, [], [], [], files, {})
  }

  datatype Event =
    | TarOffers | TarFinishes | TarFails | TarRefused | TarCloses | TarSends
    | FnTakes | FnOffers | FnFinishes | FnFails | FnRefused | FnCloses | FnSends
    | TakeChunk | DataEnds | TakeLine | ManifestEnds
    | Output(ok: bool, created: nat) | Spawns | ClosesReader | TakesFn | Returns | Joins | Flushes(ok: bool, created: nat)
    | Decides(partCount: nat) | Removes(ok: bool) | Fails

  predicate Enabled(job: Job, w: World, e: Event) {
    match e
    case TarOffers => w.producer.Building? && w.producer.i < |job.chunks|
    case TarFinishes => w.producer.Building? && w.producer.i == |job.chunks|
    case TarFails => w.producer.Building?
    case TarRefused => w.producer.Offering? && w.dataClosed
    case TarCloses => w.producer.Ending?
    case TarSends => w.producer.Closed?
    case FnTakes => w.fn.Awaiting? && w.tarResult.Some?
    case FnOffers => w.fn.Encoding? && w.fn.i < |job.lines|
    case FnFinishes => w.fn.Encoding? && w.fn.i == |job.lines|
    case FnFails => w.fn.Encoding?
    case FnRefused => w.fn.OfferingLine? && w.manifestClosed
    case FnCloses => w.fn.Leaving?
    case FnSends => w.fn.LineClosed?
    case TakeChunk => w.main.DataRead? && w.producer.Offering? && !w.dataClosed && w.producer.i < |job.chunks|
    case DataEnds => w.main.DataRead? && (w.producer.Closed? || w.producer.Sent?)
    case TakeLine => w.main.ManifestRead? && w.fn.OfferingLine? && !w.manifestClosed && w.fn.i < |job.lines|
    case ManifestEnds => w.main.ManifestRead? && (w.fn.LineClosed? || w.fn.LineSent?)
    case Output(_, _) =>
      || w.main.Header? || w.main.DataWrite? || w.main.DataFinal?
      || w.main.ManifestWrite? || w.main.ManifestFinal? || w.main.Trailer?
    case Spawns => w.main.Spawning?
    case ClosesReader => w.main.ClosingReader?
    case TakesFn => w.main.AwaitingFn? && w.fnResult.Some?
    case Returns => w.main.Returned?
    case Joins => w.main.Joining? && (w.tarDone || w.tarResult.Some?)
    case Flushes(_, _) => w.main.Flushing?
    case Decides(_) => w.main.Deciding?
    case Removes(_) => w.main.Removing? && w.main.i < |w.paths|
    case Fails => w.main.Removing? && w.main.i == |w.paths|
  }

  /** What the main goroutine does after writing a piece of the output. */
  function AfterOutput(m: Main, ok: bool): Main {
    match m
    case Header => if ok then DataRead else Returned(true)
    case DataWrite => if ok then DataRead else Returned(true)
    case DataFinal => if ok then Spawning else Returned(true)
    case ManifestWrite => if ok then ManifestRead else ClosingReader(true)
    case ManifestFinal => ClosingReader(!ok)
    case Trailer => Returned(!ok)
    case _ => m
  }

  /** openNext, this many times. */
  function Opened(e: BackupEntry, paths: seq<string>, count: nat): seq<string> {
    if count == 0 then paths
    else
      var before := Opened(e, paths, count - 1);
      before + [TempName(e, |before| + 1)]
  }

  /** New parts are on disk. */
  function WithParts(job: Job, w: World, created: nat): World {
    var paths := Opened(job.entry, w.paths, created);
    w.(paths := paths, files := w.files + set p | p in paths)
  }

  function Apply(job: Job, w: World, e: Event): World
    requires Enabled(job, w, e)
  {
    match e
    case TarOffers => w.(producer := Offering(w.producer.i))
    case TarFinishes => w.(producer := Ending(false))
    case TarFails => w.(producer := Ending(true))
    case TarRefused => w.(producer := Ending(true))
    case TarCloses => w.(producer := Closed(w.producer.failed))
    case TarSends => w.(producer := Sent(w.producer.failed), tarResult := Some(w.producer.failed))
    case FnTakes =>
      w.(tarResult := None, tarDone := true, tarFailed := w.tarResult.value, taken := w.taken + 1,
         fn := if w.tarResult.value then Leaving(Other) else Encoding(0))
    case FnOffers => w.(fn := OfferingLine(w.fn.i))
    case FnFinishes => w.(fn := Leaving(NoError))
    case FnFails => w.(fn := Leaving(Other))
    case FnRefused => w.(fn := Leaving(Stopped))
    case FnCloses => w.(fn := LineClosed(w.fn.e))
    case FnSends => w.(fn := LineSent(w.fn.e), fnResult := Some(w.fn.e))
    case TakeChunk =>
      w.(producer := Building(w.producer.i + 1), main := DataWrite, data := w.data + job.chunks[w.producer.i])
    case DataEnds => w.(main := if w.producer.failed then Returned(true) else DataFinal)
    case TakeLine =>
      w.(fn := Encoding(w.fn.i + 1), main := ManifestWrite, manifest := w.manifest + job.lines[w.fn.i])
    case ManifestEnds => w.(main := if w.fn.e == NoError then ManifestFinal else ClosingReader(true))
    case Output(ok, created) => WithParts(job, w, created).(main := AfterOutput(w.main, ok))
    case Spawns => w.(main := ManifestRead, fn := Awaiting)
    case ClosesReader => w.(main := AwaitingFn(w.main.failed), manifestClosed := true)
    case TakesFn =>
      w.(main := if w.fnResult.value == Other || w.main.failed then Returned(true) else Trailer, fnResult := None)
    case Returns => w.(main := Joining(w.main.failed), dataClosed := true)
    case Joins =>
      if w.tarDone then w.(main := Flushing(w.main.failed))
      else w.(main := Flushing(w.main.failed), tarFailed := w.tarResult.value, tarResult := None, taken := w.taken + 1)
    case Flushes(ok, created) => WithParts(job, w, created).(main := Deciding(w.tarFailed || w.main.failed || !ok))
    case Decides(partCount) =>
      w.(main := if w.main.failed || |w.paths| != partCount then Removing(0) else Finalizing)
    case Removes(ok) =>
      var path := w.paths[w.main.i];
      w.(main := Removing(w.main.i + 1), files := if ok then w.files - {path} else w.files,
         unremoved := if ok then w.unremoved else w.unremoved + {path})
    case Fails => w.(main := Failed)
  }

  predicate Over(w: World) { w.main.Failed? || w.main.Finalizing? }

  // ------------------------------------------------------------------------ the invariant

  /** The main goroutine has not yet returned from container.Write. */
  predicate Inside(m: Main) {
    !m.Returned? && !m.Joining? && !m.Flushing? && !m.Deciding? && !m.Removing? && !m.Failed? && !m.Finalizing?
  }

  predicate InData(m: Main) { m.Header? || m.DataRead? || m.DataWrite? || m.DataFinal? || m.Spawning? }

  predicate InManifest(m: Main) {
    m.ManifestRead? || m.ManifestWrite? || m.ManifestFinal? || m.ClosingReader? || m.AwaitingFn?
  }

  /** Past the wait for the producer's result. */
  predicate Past(m: Main) { m.Flushing? || m.Deciding? || m.Removing? || m.Failed? || m.Finalizing? }

  predicate HasFailed(m: Main) {
    match m
    case ClosingReader(f) => f
    case AwaitingFn(f) => f
    case Returned(f) => f
    case Joining(f) => f
    case Flushing(f) => f
    case Deciding(f) => f
    case Removing(_) => true
    case Failed => true
    case _ => false
  }

  /** The producer's result is in exactly one place: not sent, in the channel, or taken. */
  ghost predicate ResultOnce(w: World) {
    && (w.tarResult.Some? ==> w.producer == Sent(w.tarResult.value) && w.taken == 0)
    && (w.producer.Sent? && w.taken == 0 ==> w.tarResult.Some?)
    && (w.taken > 0 ==> w.producer == Sent(w.tarFailed) && w.taken == 1)
    && (w.tarDone <==> !w.fn.NotStarted? && !w.fn.Awaiting?)
    && (w.taken > 0 <==> w.tarDone || Past(w.main))
  }

  ghost predicate FnOnce(w: World) {
    && (w.fn.NotStarted? ==> InData(w.main) || !Inside(w.main))
    && (InData(w.main) ==> w.fn.NotStarted?)
    && (InManifest(w.main) && w.fn.LineSent? ==> w.fnResult == Some(w.fn.e))
    && (w.fnResult.Some? ==> w.fn == LineSent(w.fnResult.value) && InManifest(w.main))
    && (w.main.Trailer? || !Inside(w.main) ==> w.fn.NotStarted? || w.fn.LineSent?)
    && (w.main.AwaitingFn? ==> w.manifestClosed)
    && (w.manifestClosed ==> w.main.AwaitingFn? || w.main.Trailer? || !Inside(w.main))
  }

  ghost predicate DataFlows(job: Job, w: World) {
    && (w.dataClosed <==> !Inside(w.main) && !w.main.Returned?)
    && (match w.producer
        case Building(i) => i <= |job.chunks| && w.data == Joined(job.chunks[..i])
        case Offering(i) => i < |job.chunks| && w.data == Joined(job.chunks[..i])
        case Ending(failed) => failed || w.data == Joined(job.chunks)
        case Closed(failed) => failed || w.data == Joined(job.chunks)
        case Sent(failed) => failed || w.data == Joined(job.chunks))
    && (w.main.DataFinal? || w.main.Spawning? || InManifest(w.main) || w.main.Trailer? ==>
          w.producer == Closed(false) || w.producer == Sent(false))
  }

  ghost predicate ManifestFlows(job: Job, w: World) {
    && (match w.fn
        case Encoding(i) => i <= |job.lines| && w.manifest == Joined(job.lines[..i])
        case OfferingLine(i) => i < |job.lines| && w.manifest == Joined(job.lines[..i])
        case Leaving(e) => e == NoError ==> w.manifest == Joined(job.lines)
        case LineClosed(e) => e == NoError ==> w.manifest == Joined(job.lines)
        case LineSent(e) => e == NoError ==> w.manifest == Joined(job.lines)
        case _ => w.manifest == [])
    && (w.main.ManifestFinal? || ((w.main.ClosingReader? || w.main.AwaitingFn?) && !w.main.failed) ==>
          w.fn == LineClosed(NoError) || w.fn == LineSent(NoError))
    && (w.main.Trailer? || (!Inside(w.main) && !HasFailed(w.main)) ==> w.fn == LineSent(NoError))
  }

  ghost predicate Ends(w: World) {
    && (w.main.Deciding? && !w.main.failed ==> !w.tarFailed)
    && (w.main.Finalizing? ==> !w.tarFailed)
  }

  /** How many of the created parts os.Remove was called for. */
  function Cleared(w: World): nat {
    if w.main.Removing? then w.main.i else if w.main.Failed? then |w.paths| else 0
  }

  /** The parts are those numbered from 1; no other file is touched; until removal
      begins all of them are there, and those it has passed are gone unless
      os.Remove refused. */
  ghost predicate OnDisk(job: Job, before: set<string>, w: World) {
    && w.paths == TempParts(job.entry, |w.paths|)
    && (forall x :: x !in w.paths ==> (x in w.files <==> x in before))
    && Cleared(w) <= |w.paths|
    && (!w.main.Removing? && !w.main.Failed? ==> w.unremoved == {} && forall p :: p in w.paths ==> p in w.files)
    && (forall j :: 0 <= j < Cleared(w) && w.paths[j] in w.files ==> w.paths[j] in w.unremoved)
  }

  ghost predicate Inv(job: Job, before: set<string>, w: World) {
    Runs(job, w) && OnDisk(job, before, w)
  }

  ghost predicate Runs(job: Job, w: World) {
    ResultOnce(w) && FnOnce(w) && DataFlows(job, w) && ManifestFlows(job, w) && Ends(w)
  }

  lemma StartHolds(job: Job, before: set<string>)
    ensures Inv(job, before, Start(before))
  {
  }

  lemma {:induction false} OpenedIs(e: BackupEntry, paths: seq<string>, count: nat)
    requires paths == TempParts(e, |paths|)
    ensures |Opened(e, paths, count)| == |paths| + count
    ensures Opened(e, paths, count) == TempParts(e, |paths| + count)
    ensures forall p :: p in paths ==> p in Opened(e, paths, count)
  {
    hide TempName;
    if count > 0 {
      OpenedIs(e, paths, count - 1);
    }
  }

  lemma JoinedOneMore(pieces: seq<Bytes>, i: nat)
    requires i < |pieces|
    ensures Joined(pieces[..i + 1]) == Joined(pieces[..i]) + pieces[i]
  {
    assert pieces[..i + 1][..i] == pieces[..i];
  }

  lemma JoinedAll(pieces: seq<Bytes>)
    ensures Joined(pieces[..|pieces|]) == Joined(pieces) && Joined(pieces[..0]) == []
  {
    assert pieces[..|pieces|] == pieces;
  }

  // ----------------------------------------------------------------- each step keeps it

  predicate OfProducer(e: Event) {
    e.TarOffers? || e.TarFinishes? || e.TarFails? || e.TarRefused? || e.TarCloses? || e.TarSends?
  }

  lemma ProducerKeeps(job: Job, w: World, e: Event)
    requires Runs(job, w) && Enabled(job, w, e) && OfProducer(e)
    ensures Runs(job, Apply(job, w, e))
  {
    JoinedAll(job.chunks);
    hide Joined, AfterOutput, HasFailed;
  }

  predicate OfFn(e: Event) {
    e.FnTakes? || e.FnOffers? || e.FnFinishes? || e.FnFails? || e.FnRefused? || e.FnCloses? || e.FnSends?
  }

  lemma FnKeeps(job: Job, w: World, e: Event)
    requires Runs(job, w) && Enabled(job, w, e) && OfFn(e)
    ensures Runs(job, Apply(job, w, e))
  {
    JoinedAll(job.lines);
    hide Joined, AfterOutput;
  }

  lemma TakeChunkKeeps(job: Job, w: World)
    requires Runs(job, w) && Enabled(job, w, TakeChunk)
    ensures Runs(job, Apply(job, w, TakeChunk))
  {
    JoinedOneMore(job.chunks, w.producer.i);
    hide Joined;
  }

  lemma TakeLineKeeps(job: Job, w: World)
    requires Runs(job, w) && Enabled(job, w, TakeLine)
    ensures Runs(job, Apply(job, w, TakeLine))
  {
    JoinedOneMore(job.lines, w.fn.i);
    hide Joined;
  }

  lemma PipeEndsKeeps(job: Job, w: World, e: Event)
    requires Runs(job, w) && Enabled(job, w, e) && (e.DataEnds? || e.ManifestEnds?)
    ensures Runs(job, Apply(job, w, e))
  {
    hide Joined;
  }

  lemma OutputKeeps(job: Job, w: World, ok: bool, created: nat)
    requires Runs(job, w) && Enabled(job, w, Output(ok, created))
    ensures Runs(job, Apply(job, w, Output(ok, created)))
  {
    hide Joined, Opened;
  }

  lemma TurnsKeep(job: Job, w: World, e: Event)
    requires Runs(job, w) && Enabled(job, w, e) && (e.ClosesReader? || e.Returns?)
    ensures Runs(job, Apply(job, w, e))
  {
    hide Joined, AfterOutput;
  }

  lemma SpawnKeeps(job: Job, w: World)
    requires Runs(job, w) && Enabled(job, w, Spawns)
    ensures Runs(job, Apply(job, w, Spawns))
  {
    hide Joined, AfterOutput;
  }

  lemma TakesFnKeeps(job: Job, w: World)
    requires Runs(job, w) && Enabled(job, w, TakesFn)
    ensures Runs(job, Apply(job, w, TakesFn))
  {
    hide Joined;
  }

  lemma JoinsKeeps(job: Job, w: World)
    requires Runs(job, w) && Enabled(job, w, Joins)
    ensures Runs(job, Apply(job, w, Joins))
  {
    hide Joined;
  }

  lemma FlushKeeps(job: Job, w: World, e: Event)
    requires Runs(job, w) && Enabled(job, w, e) && e.Flushes?
    ensures Runs(job, Apply(job, w, e))
  {
    hide Joined, Opened, AfterOutput;
  }

  lemma DecisionKeeps(job: Job, w: World, e: Event)
    requires Runs(job, w) && Enabled(job, w, e) && e.Decides?
    ensures Runs(job, Apply(job, w, e))
  {
    hide Joined, AfterOutput;
  }

  lemma RemovalKeeps(job: Job, w: World, e: Event)
    requires Runs(job, w) && Enabled(job, w, e) && (e.Removes? || e.Fails?)
    ensures Runs(job, Apply(job, w, e))
  {
    hide Joined, AfterOutput;
  }

  lemma StepKeepsRuns(job: Job, w: World, e: Event)
    requires Runs(job, w) && Enabled(job, w, e)
    ensures Runs(job, Apply(job, w, e))
  {
    hide Apply, Enabled, Runs;
    if OfProducer(e) {
      ProducerKeeps(job, w, e);
    } else if OfFn(e) {
      FnKeeps(job, w, e);
    } else {
      match e
      case TakeChunk => TakeChunkKeeps(job, w);
      case TakeLine => TakeLineKeeps(job, w);
      case DataEnds => PipeEndsKeeps(job, w, e);
      case ManifestEnds => PipeEndsKeeps(job, w, e);
      case Output(ok, created) => OutputKeeps(job, w, ok, created);
      case Joins => JoinsKeeps(job, w);
      case TakesFn => TakesFnKeeps(job, w);
      case Spawns => SpawnKeeps(job, w);
      case Flushes(_, _) => FlushKeeps(job, w, e);
      case Decides(_) => DecisionKeeps(job, w, e);
      case Removes(_) => RemovalKeeps(job, w, e);
      case Fails => RemovalKeeps(job, w, e);
      case _ => TurnsKeep(job, w, e);
    }
  }

  lemma PartsStay(job: Job, before: set<string>, w: World, e: Event)
    requires OnDisk(job, before, w) && Enabled(job, w, e)
    requires !e.Output? && !e.Flushes? && !e.Decides? && !e.Removes? && !e.Fails?
    ensures OnDisk(job, before, Apply(job, w, e))
  {
    var v := Apply(job, w, e);
    assert v.paths == w.paths && v.files == w.files && v.unremoved == w.unremoved;
    assert v.main == w.main || !(v.main.Removing? || v.main.Failed? || w.main.Removing? || w.main.Failed?);
    hide Apply, Enabled, TempParts;
  }

  lemma PartsOpen(job: Job, before: set<string>, w: World, e: Event)
    requires OnDisk(job, before, w) && Enabled(job, w, e) && (e.Output? || e.Flushes?)
    ensures OnDisk(job, before, Apply(job, w, e))
  {
    var v := Apply(job, w, e);
    OpenedIs(job.entry, w.paths, e.created);
    StillWriting(job, w, e);
    hide Opened, TempParts, Apply, Enabled;
  }

  lemma StillWriting(job: Job, w: World, e: Event)
    requires Enabled(job, w, e) && (e.Output? || e.Flushes?)
    ensures !w.main.Removing? && !w.main.Failed?
    ensures var v, paths := Apply(job, w, e), Opened(job.entry, w.paths, e.created);
            && !v.main.Removing? && !v.main.Failed?
            && v.paths == paths && v.unremoved == w.unremoved && v.files == w.files + set p | p in paths
  {
    hide Opened;
  }

  lemma PartsGo(job: Job, before: set<string>, w: World, e: Event)
    requires OnDisk(job, before, w) && Enabled(job, w, e) && (e.Decides? || e.Removes? || e.Fails?)
    ensures OnDisk(job, before, Apply(job, w, e))
  {
    hide TempParts;
  }

  lemma StepKeepsInv(job: Job, before: set<string>, w: World, e: Event)
    requires Inv(job, before, w) && Enabled(job, w, e)
    ensures Inv(job, before, Apply(job, w, e))
  {
    StepKeepsRuns(job, w, e);
    hide Apply, Enabled, Runs, OnDisk;
    if e.Output? || e.Flushes? {
      PartsOpen(job, before, w, e);
    } else if e.Decides? || e.Removes? || e.Fails? {
      PartsGo(job, before, w, e);
    } else {
      PartsStay(job, before, w, e);
    }
  }

  ghost predicate IsRun(job: Job, w: World, events: seq<Event>, v: World)
    decreases |events|
  {
    if events == [] then w == v
    else Enabled(job, w, events[0]) && IsRun(job, Apply(job, w, events[0]), events[1..], v)
  }

  lemma {:induction false} RunKeepsInv(job: Job, before: set<string>, w: World, events: seq<Event>, v: World)
    requires Inv(job, before, w) && IsRun(job, w, events, v)
    ensures Inv(job, before, v)
    decreases |events|
  {
    hide Inv, Enabled, Apply;
    if events != [] {
      StepKeepsInv(job, before, w, events[0]);
      RunKeepsInv(job, before, Apply(job, w, events[0]), events[1..], v);
    }
  }

  // ---------------------------------------------------------------- neither stuck nor endless

  function ProducerStep(job: Job, w: World): Event
    requires w.producer.Building?
  {
    if w.producer.i < |job.chunks| then TarOffers else TarFinishes
  }

  /** A step that some goroutine can make, none of them a failure. */
  function SomeStep(job: Job, w: World): Event {
    match w.main
    case DataRead =>
      (match w.producer
       case Building(_) => ProducerStep(job, w)
       case Offering(_) => TakeChunk
       case Ending(_) => TarCloses
       case _ => DataEnds)
    case Spawning => Spawns
    case ManifestRead =>
      (match w.fn
       case OfferingLine(_) => TakeLine
       case LineClosed(_) => ManifestEnds
       case LineSent(_) => ManifestEnds
       case _ => FnStep(job, w))
    case ClosingReader(_) => ClosesReader
    case AwaitingFn(_) => if w.fnResult.Some? then TakesFn else FnStep(job, w)
    case Returned(_) => Returns
    case Joining(_) =>
      if w.tarDone || w.tarResult.Some? then Joins
      else
        (match w.producer
         case Building(_) => ProducerStep(job, w)
         case Offering(_) => TarRefused
         case Ending(_) => TarCloses
         case _ => TarSends)
    case Flushing(_) => Flushes(true, 0)
    case Deciding(_) => Decides(|w.paths|)
    case Removing(i) => if i < |w.paths| then Removes(true) else Fails
    case _ => Output(true, 0)
  }

  /** A step of the manifest function, or of the producer it waits for. */
  function FnStep(job: Job, w: World): Event {
    match w.fn
    case Awaiting => if w.tarResult.Some? then FnTakes else TarSends
    case Encoding(i) => if i < |job.lines| then FnOffers else FnFinishes
    case OfferingLine(_) => FnRefused
    case Leaving(_) => FnCloses
    case _ => FnSends
  }

  /** No interleaving deadlocks: until Write has its outcome, some goroutine can go on. */
  lemma NeverDeadlocks(job: Job, before: set<string>, events: seq<Event>, w: World)
    requires IsRun(job, Start(before), events, w) && !Over(w)
    ensures Enabled(job, w, SomeStep(job, w)) && !SomeStep(job, w).TarFails? && !SomeStep(job, w).FnFails?
  {
    StartHolds(job, before);
    NoFailure(job, w);
    RunKeepsInv(job, before, Start(before), events, w);
    hide *;
    if w.main.ManifestRead? || w.main.AwaitingFn? {
      AwaitingFnGoesOn(job, w);
    } else if w.main.DataRead? || w.main.Joining? {
      AwaitingProducerGoesOn(job, w);
    } else {
      MainGoesOn(job, before, w);
    }
  }

  lemma NoFailure(job: Job, w: World)
    ensures !SomeStep(job, w).TarFails? && !SomeStep(job, w).FnFails?
  {
  }

  lemma AwaitingProducerGoesOn(job: Job, w: World)
    requires Runs(job, w) && (w.main.DataRead? || w.main.Joining?)
    ensures Enabled(job, w, SomeStep(job, w))
  {
    hide Joined, ManifestFlows, Ends;
  }

  lemma MainGoesOn(job: Job, before: set<string>, w: World)
    requires OnDisk(job, before, w) && !Over(w)
    requires !(w.main.ManifestRead? || w.main.AwaitingFn? || w.main.DataRead? || w.main.Joining?)
    ensures Enabled(job, w, SomeStep(job, w))
  {
  }

  lemma AwaitingFnGoesOn(job: Job, w: World)
    requires Runs(job, w) && (w.main.ManifestRead? || w.main.AwaitingFn?)
    ensures Enabled(job, w, SomeStep(job, w))
  {
    hide Joined;
  }

  function ProducerRank(job: Job, p: Producer): int {
    match p
    case Building(i) => 3 * (|job.chunks| - i) + 5
    case Offering(i) => 3 * (|job.chunks| - i) + 4
    case Ending(_) => 3
    case Closed(_) => 2
    case Sent(_) => 1
  }

  function FnRank(job: Job, f: ManifestFn): int {
    match f
    case NotStarted => 3 * |job.lines| + 7
    case Awaiting => 3 * |job.lines| + 6
    case Encoding(i) => 3 * (|job.lines| - i) + 5
    case OfferingLine(i) => 3 * (|job.lines| - i) + 4
    case Leaving(_) => 3
    case LineClosed(_) => 2
    case LineSent(_) => 1
  }

  /** Removal goes below zero, one step for each part. */
  function MainRank(m: Main, parts: nat): int {
    match m
    case Header => 17
    case DataWrite => 16
    case DataRead => 15
    case DataFinal => 14
    case Spawning => 13
    case ManifestWrite => 12
    case ManifestRead => 11
    case ManifestFinal => 10
    case ClosingReader(_) => 9
    case AwaitingFn(_) => 8
    case Trailer => 7
    case Returned(_) => 6
    case Joining(_) => 5
    case Flushing(_) => 4
    case Deciding(_) => 3
    case Finalizing => 0
    case Removing(i) => 2 - i
    case Failed => 1 - parts
  }

  function Rank(job: Job, w: World): int { ProducerRank(job, w.producer) + FnRank(job, w.fn) + MainRank(w.main, |w.paths|) }

  /** Every step brings the end closer, so every run ends. */
  lemma RunsEnd(job: Job, before: set<string>, events: seq<Event>, w: World)
    requires IsRun(job, Start(before), events, w)
    ensures |events| <= 3 * |job.chunks| + 3 * |job.lines| + 29 + |w.paths|
  {
    StartHolds(job, before);
    RankFalls(job, before, Start(before), events, w);
    RunKeepsInv(job, before, Start(before), events, w);
    RankIsBounded(job, before, w);
    hide IsRun, Inv;
  }

  lemma RankIsBounded(job: Job, before: set<string>, w: World)
    requires Inv(job, before, w)
    ensures Rank(job, w) >= -|w.paths|
  {
    hide Joined, FnOnce, ResultOnce, Ends, TempParts;
  }

  lemma SidesLowerRank(job: Job, w: World, e: Event)
    requires Enabled(job, w, e) && (OfProducer(e) || OfFn(e) || e.TakeChunk? || e.TakeLine?)
    requires WithinBounds(job, w)
    ensures Rank(job, Apply(job, w, e)) < Rank(job, w)
  {
    hide AfterOutput;
  }

  predicate WithinBounds(job: Job, w: World) {
    && (w.producer.Building? ==> w.producer.i <= |job.chunks|) && (w.producer.Offering? ==> w.producer.i < |job.chunks|)
    && (w.fn.Encoding? ==> w.fn.i <= |job.lines|) && (w.fn.OfferingLine? ==> w.fn.i < |job.lines|)
  }

  lemma RunsBounds(job: Job, w: World)
    requires Runs(job, w)
    ensures WithinBounds(job, w)
  {
    hide Joined, FnOnce, ResultOnce, Ends;
  }

  lemma OutputLowersRank(w: World, ok: bool, parts: nat)
    requires w.main.Header? || w.main.DataWrite? || w.main.DataFinal?
             || w.main.ManifestWrite? || w.main.ManifestFinal? || w.main.Trailer?
    ensures MainRank(AfterOutput(w.main, ok), parts) < MainRank(w.main, |w.paths|)
  {
  }

  lemma OutputStepLowersRank(job: Job, w: World, ok: bool, created: nat)
    requires Enabled(job, w, Output(ok, created))
    ensures Rank(job, Apply(job, w, Output(ok, created))) < Rank(job, w)
  {
    OutputLowersRank(w, ok, |Opened(job.entry, w.paths, created)|);
    hide ProducerRank, FnRank, MainRank, AfterOutput, Opened;
  }

  lemma PipeEndLowersRank(job: Job, w: World, e: Event)
    requires Enabled(job, w, e) && (e.DataEnds? || e.ManifestEnds?)
    ensures Rank(job, Apply(job, w, e)) < Rank(job, w)
  {
    hide ProducerRank, FnRank, AfterOutput;
  }

  lemma TurnLowersRank(job: Job, w: World, e: Event)
    requires Enabled(job, w, e) && (e.Spawns? || e.ClosesReader? || e.Returns?)
    requires e.Spawns? ==> w.fn.NotStarted?
    ensures Rank(job, Apply(job, w, e)) < Rank(job, w)
  {
    hide ProducerRank, AfterOutput;
  }

  lemma ResultLowersRank(job: Job, w: World, e: Event)
    requires Enabled(job, w, e) && (e.TakesFn? || e.Joins?)
    ensures Rank(job, Apply(job, w, e)) < Rank(job, w)
  {
    hide ProducerRank, FnRank, AfterOutput;
  }

  lemma LastTurnLowersRank(job: Job, w: World, e: Event)
    requires Enabled(job, w, e) && (e.Flushes? || e.Decides? || e.Removes? || e.Fails?)
    ensures Rank(job, Apply(job, w, e)) < Rank(job, w)
  {
    hide ProducerRank, FnRank, AfterOutput, Opened;
  }

  lemma StepLowersRank(job: Job, w: World, e: Event)
    requires Runs(job, w) && Enabled(job, w, e)
    ensures Rank(job, Apply(job, w, e)) < Rank(job, w)
  {
    if OfProducer(e) || OfFn(e) || e.TakeChunk? || e.TakeLine? {
      RunsBounds(job, w);
      SidesLowerRank(job, w, e);
    } else if e.Output? {
      OutputStepLowersRank(job, w, e.ok, e.created);
    } else if e.DataEnds? || e.ManifestEnds? {
      PipeEndLowersRank(job, w, e);
    } else if e.Spawns? || e.ClosesReader? || e.Returns? {
      SpawnsFresh(job, w, e);
      TurnLowersRank(job, w, e);
    } else if e.TakesFn? || e.Joins? {
      ResultLowersRank(job, w, e);
    } else {
      LastTurnLowersRank(job, w, e);
    }
    hide Apply, Rank, Runs, Enabled;
  }

  lemma SpawnsFresh(job: Job, w: World, e: Event)
    requires Runs(job, w) && Enabled(job, w, e)
    ensures e.Spawns? ==> w.fn.NotStarted?
  {
    hide DataFlows, ManifestFlows, ResultOnce, Ends;
  }

  lemma {:induction false} RankFalls(job: Job, before: set<string>, w: World, events: seq<Event>, v: World)
    requires Inv(job, before, w) && IsRun(job, w, events, v)
    ensures Rank(job, v) + |events| <= Rank(job, w)
    decreases |events|
  {
    hide Runs, OnDisk, Enabled, Apply, Rank;
    if events != [] {
      StepKeepsInv(job, before, w, events[0]);
      StepLowersRank(job, w, events[0]);
      RankFalls(job, before, Apply(job, w, events[0]), events[1..], v);
    }
  }

  // ------------------------------------------------------------------------------- outcome

  /** When Write has its outcome: the producer's result was taken exactly once and
      no goroutine is left behind; the parts go on to their final names only when
      neither side had an error, and then the set holds the whole TAR stream and
      the whole manifest, and all its parts are there under their temporary
      names; otherwise none of the parts it has created is left, except those that
      os.Remove refused to remove. Other files stay as they were. */
  lemma Outcome(job: Job, before: set<string>, events: seq<Event>, w: World)
    requires IsRun(job, Start(before), events, w) && Over(w)
    ensures w.taken == 1 && w.producer == Sent(w.tarFailed) && w.tarResult.None?
    ensures w.fn.NotStarted? || w.fn.LineSent?
    ensures w.paths == TempParts(job.entry, |w.paths|)
    ensures w.main.Finalizing? ==>
              && !w.tarFailed && w.fn == LineSent(NoError)
              && w.data == Joined(job.chunks) && w.manifest == Joined(job.lines)
              && forall p :: p in w.paths ==> p in w.files
    ensures w.main.Failed? ==> forall p :: p in w.paths && p in w.files ==> p in w.unremoved
    ensures forall x :: x !in w.paths ==> (x in w.files <==> x in before)
  {
    StartHolds(job, before);
    RunKeepsInv(job, before, Start(before), events, w);
    hide IsRun, Joined, TempParts;
  }

  /** Reading the source, encoding the manifest, writing or closing a part fails, or the
      parts are not as many as the trailer records. */
  predicate StepFails(w: World, e: Event) {
    || e.TarFails? || e.FnFails? || (e.Output? && !e.ok) || (e.Flushes? && !e.ok)
    || (e.Decides? && e.partCount != |w.paths|)
  }

  ghost predicate SomeStepFails(job: Job, w: World, events: seq<Event>)
    decreases |events|
  {
    events != [] &&
    (StepFails(w, events[0])
     || (Enabled(job, w, events[0]) && SomeStepFails(job, Apply(job, w, events[0]), events[1..])))
  }

  /** Some goroutine knows of a failure. */
  predicate Noted(w: World) {
    || (w.producer.Ending? && w.producer.failed) || (w.producer.Closed? && w.producer.failed)
    || (w.producer.Sent? && w.producer.failed)
    || (w.fn.Leaving? && w.fn.e != NoError) || (w.fn.LineClosed? && w.fn.e != NoError)
    || (w.fn.LineSent? && w.fn.e != NoError)
    || HasFailed(w.main)
  }

  lemma NotedStep(job: Job, w: World, e: Event)
    requires Runs(job, w) && Enabled(job, w, e)
    ensures Noted(Apply(job, w, e)) <==> Noted(w) || StepFails(w, e)
  {
    hide Runs, Noted, StepFails, Apply, Enabled;
    if OfProducer(e) {
      NotedByProducer(job, w, e);
    } else if OfFn(e) {
      NotedByFn(job, w, e);
    } else {
      NotedByMain(job, w, e);
    }
  }

  lemma NotedByProducer(job: Job, w: World, e: Event)
    requires Runs(job, w) && Enabled(job, w, e) && OfProducer(e)
    ensures Noted(Apply(job, w, e)) <==> Noted(w) || StepFails(w, e)
  {
    hide Joined, Opened, TempParts, Ends;
  }

  lemma NotedByFn(job: Job, w: World, e: Event)
    requires Runs(job, w) && Enabled(job, w, e) && OfFn(e)
    ensures Noted(Apply(job, w, e)) <==> Noted(w) || StepFails(w, e)
  {
    hide Joined, Opened, TempParts, DataFlows, Ends;
  }

  lemma NotedByMain(job: Job, w: World, e: Event)
    requires Runs(job, w) && Enabled(job, w, e) && !OfProducer(e) && !OfFn(e)
    ensures Noted(Apply(job, w, e)) <==> Noted(w) || StepFails(w, e)
  {
    hide Joined, Opened, TempParts, DataFlows, ManifestFlows, Ends;
  }

  lemma {:induction false} NotedRun(job: Job, before: set<string>, w: World, events: seq<Event>, v: World)
    requires Inv(job, before, w) && IsRun(job, w, events, v)
    ensures Noted(v) <==> Noted(w) || SomeStepFails(job, w, events)
    ensures v.unremoved != {} ==> w.unremoved != {} || Removes(false) in events
    decreases |events|
  {
    hide Inv, Noted, StepFails, Enabled, Apply;
    if events != [] {
      InvRuns(job, before, w);
      NotedStep(job, w, events[0]);
      UnremovedStep(job, w, events[0]);
      StepKeepsInv(job, before, w, events[0]);
      NotedRun(job, before, Apply(job, w, events[0]), events[1..], v);
    }
  }

  lemma InvRuns(job: Job, before: set<string>, w: World)
    requires Inv(job, before, w)
    ensures Runs(job, w)
  {
    hide Runs, OnDisk;
  }

  lemma UnremovedStep(job: Job, w: World, e: Event)
    requires Enabled(job, w, e)
    ensures Apply(job, w, e).unremoved != {} ==> w.unremoved != {} || e == Removes(false)
  {
    hide Opened;
  }

  /** A backup that comes to its end is complete exactly when no step of it failed; and
      a part is left behind only when os.Remove refused to remove one. */
  lemma SucceedsExactly(job: Job, before: set<string>, events: seq<Event>, w: World)
    requires IsRun(job, Start(before), events, w) && Over(w)
    ensures w.main.Finalizing? <==> !SomeStepFails(job, Start(before), events)
    ensures w.main.Failed? && Removes(false) !in events ==> forall p :: p in w.paths ==> p !in w.files
  {
    StartHolds(job, before);
    NotedRun(job, before, Start(before), events, w);
    Outcome(job, before, events, w);
    hide IsRun, Joined, TempParts, SomeStepFails, Inv;
  }

  /** The producer's result is never taken twice, at no time. */
  lemma TakenAtMostOnce(job: Job, before: set<string>, events: seq<Event>, w: World)
    requires IsRun(job, Start(before), events, w)
    ensures w.taken <= 1
  {
    StartHolds(job, before);
    RunKeepsInv(job, before, Start(before), events, w);
    hide IsRun, Joined, OnDisk;
  }
}
