/** The bridge between workflow goroutines and the UI thread: what each critical
    section does to the shared state, and what holds in every interleaving. */
module Bridge {
  import opened Wrappers

  /** One question of a worker. */
  type Id = nat

  datatype Answer = Cancelled | Given(value: int)

  /** The fields that the mutex guards. */
  datatype Shared = Shared(
    queue: seq<Id>, current: Option<Id>, closed: bool,
    output: string, outPosted: bool, progress: int, progPosted: bool)

  // ------------------------------------------------------------------ critical sections

  function Enqueue(s: Shared, q: Id): Shared { if s.closed then s else s.(queue := s.queue + [q]) }

  function Pop(s: Shared): Shared {
    if s.queue == [] || s.current.Some? then s else s.(queue := s.queue[1..], current := Some(s.queue[0]))
  }

  function Settle(s: Shared, q: Id): Shared { if s.current == Some(q) then s.(current := None) else s }

  function Shut(s: Shared): Shared { s.(closed := true, queue := [], current := None) }

  /** The questions that Close answers: the shown one, then the queued ones. */
  function Pending(s: Shared): seq<Id> { (if s.current.Some? then [s.current.value] else []) + s.queue }

  function Put(s: Shared, p: string): Shared { s.(output := s.output + p, outPosted := true) }

  function Take(s: Shared): Shared { s.(output := "", outPosted := false) }

  function Report(s: Shared, p: int): Shared { s.(progress := p, progPosted := true) }

  /** The bridge itself; every method is one critical section. */
  class Bridge {
    var queue: seq<Id>
    var current: Option<Id>
    var closed: bool
    var output: string
    var outPosted: bool
    var progress: int
    var progPosted: bool

    function State(): Shared
      reads this
    {
      Shared(queue, current, closed, output, outPosted, progress, progPosted)
    }

    constructor ()
      ensures State() == Shared([], None, false, "", false, 0, false)
    {
      queue, current, closed := [], None, false;
      output, outPosted, progress, progPosted := "", false, 0, false;
    }

    /** The start of Ask; a closed bridge refuses the question. */
    method Accept(q: Id) returns (accepted: bool)
      modifies this
      ensures State() == Enqueue(old(State()), q) && accepted == !old(closed)
    {
      if closed {
        return false;
      }
      queue := queue + [q];
      return true;
    }

    /** The start of ShowNext. */
    method Next() returns (q: Option<Id>)
      modifies this
      ensures State() == Pop(old(State()))
      ensures q == if old(queue) == [] || old(current).Some? then None else Some(old(queue)[0])
    {
      if |queue| == 0 || current.Some? {
        return None;
      }
      q := Some(queue[0]);
      queue, current := queue[1..], q;
    }

    /** The start of the answer function of a shown question. */
    method Answered(q: Id) returns (more: bool)
      modifies this
      ensures State() == Settle(old(State()), q) && more == (old(queue) != [])
    {
      if current == Some(q) {
        current := None;
      }
      more := |queue| > 0;
    }

    /** The start of Close. */
    method Close() returns (pending: seq<Id>, hadCurrent: bool)
      modifies this
      ensures State() == Shut(old(State())) && pending == Pending(old(State())) && hadCurrent == old(current).Some?
    {
      closed := true;
      pending := queue;
      queue := [];
      hadCurrent := current.Some?;
      if current.Some? {
        pending := [current.value] + pending;
      }
      current := None;
    }

    method Write(p: string) returns (post: bool)
      modifies this
      ensures State() == Put(old(State()), p) && post == !old(outPosted)
    {
      output := output + p;
      post := !outPosted;
      outPosted := true;
    }

    method TakeOutput() returns (s: string)
      modifies this
      ensures State() == Take(old(State())) && s == old(output)
    {
      s := output;
      output, outPosted := "", false;
    }

    method Progress(p: int) returns (post: bool)
      modifies this
      ensures State() == Report(old(State()), p) && post == !old(progPosted)
    {
      progress := p;
      post := !progPosted;
      progPosted := true;
    }

    method TakeProgress() returns (p: int)
      modifies this
      ensures State() == old(State()).(progPosted := false) && p == old(progress)
    {
      progPosted := false;
      return progress;
    }
  }

  // -------------------------------------------------------------------------- the protocol

  /** Where a worker stands in Ask: queued but not yet posted, waiting for the
      reply, or back with the answer. */
  datatype Stage = Queued | Waiting | Returned(answer: Answer)

  /** Where the UI thread stands; it runs one handler at a time. */
  datatype Ui =
    | Idle
    | Answering(q: Id, answer: Answer, more: bool)
    | Reposting
    | Closing(rest: seq<Id>)
    | ReadingOutput
    | ReadingProgress

  /** Everything: the shared state, the goroutines, the replies sent, the posted
      messages that were not handled yet, and what happened so far. */
  datatype World = World(
    shared: Shared, asks: map<Id, Stage>, replies: map<Id, Answer>, ui: Ui,
    notes: nat, outNotes: nat, outPosting: nat, progNotes: nat, progPosting: nat,
    asked: seq<Id>, shown: seq<Id>, dropped: seq<Id>, cancelled: set<Id>,
    written: string, taken: string, reported: int)

  datatype Event =
    | Ask(q: Id) | PostQuestion(q: Id) | Return(q: Id)
    | HandleQuestion | Callback(q: Id, value: int) | SendReply | Repost
    | Close | CancelNext
    | Write(p: string) | PostOutput | HandleOutput | ReadOutput
    | Progress(n: int) | PostProgress | HandleProgress | ReadProgress

  const START: World := World(
    Shared([], None, false, "", false, 0, false), map[], map[], Idle, 0, 0, 0, 0, 0, [], [], [], {}, "", "", 0)

  predicate Enabled(w: World, e: Event) {
    match e
    case Ask(q) => q !in w.asks
    case PostQuestion(q) => q in w.asks && w.asks[q] == Queued
    case Return(q) => q in w.asks && w.asks[q] == Waiting && q in w.replies
    case HandleQuestion => w.ui == Idle && w.notes > 0
    case Callback(q, _) => w.ui == Idle && q in w.shown
    case SendReply => w.ui.Answering?
    case Repost => w.ui == Reposting
    case Close => w.ui == Idle
    case CancelNext => w.ui.Closing?
    case Write(_) => true
    case PostOutput => w.outPosting > 0
    case HandleOutput => w.ui == Idle && w.outNotes > 0
    case ReadOutput => w.ui == ReadingOutput
    case Progress(_) => true
    case PostProgress => w.progPosting > 0
    case HandleProgress => w.ui == Idle && w.progNotes > 0
    case ReadProgress => w.ui == ReadingProgress
  }

  /** The once of a question: only the first answer reaches the reply channel. */
  function Reply(replies: map<Id, Answer>, q: Id, a: Answer): map<Id, Answer> {
    if q in replies then replies else replies[q := a]
  }

  function Apply(w: World, e: Event): World
    requires Enabled(w, e)
  {
    var s := w.shared;
    match e
    case Ask(q) =>
      if s.closed then w.(asks := w.asks[q := Returned(Cancelled)])
      else w.(shared := Enqueue(s, q), asks := w.asks[q := Queued], asked := w.asked + [q])
    case PostQuestion(q) => w.(asks := w.asks[q := Waiting], notes := w.notes + 1)
    case Return(q) => w.(asks := w.asks[q := Returned(w.replies[q])])
    case HandleQuestion =>
      w.(shared := Pop(s), notes := w.notes - 1,
         shown := if s.queue == [] || s.current.Some? then w.shown else w.shown + [s.queue[0]])
    case Callback(q, v) => w.(shared := Settle(s, q), ui := Answering(q, Given(v), s.queue != []))
    case SendReply =>
      w.(replies := Reply(w.replies, w.ui.q, w.ui.answer), ui := if w.ui.more then Reposting else Idle)
    case Repost => w.(notes := w.notes + 1, ui := Idle)
    case Close =>
      w.(shared := Shut(s), ui := Closing(Pending(s)), dropped := w.dropped + s.queue,
         cancelled := w.cancelled + set q | q in Pending(s))
    case CancelNext =>
      if w.ui.rest == [] then w.(ui := Idle)
      else w.(replies := Reply(w.replies, w.ui.rest[0], Cancelled), ui := Closing(w.ui.rest[1..]))
    case Write(p) =>
      w.(shared := Put(s, p), outPosting := w.outPosting + (if s.outPosted then 0 else 1), written := w.written + p)
    case PostOutput => w.(outPosting := w.outPosting - 1, outNotes := w.outNotes + 1)
    case HandleOutput => w.(outNotes := w.outNotes - 1, ui := ReadingOutput)
    case ReadOutput => w.(shared := Take(s), ui := Idle, taken := w.taken + s.output)
    case Progress(p) =>
      w.(shared := Report(s, p), progPosting := w.progPosting + (if s.progPosted then 0 else 1), reported := p)
    case PostProgress => w.(progPosting := w.progPosting - 1, progNotes := w.progNotes + 1)
    case HandleProgress => w.(progNotes := w.progNotes - 1, ui := ReadingProgress)
    case ReadProgress => w.(shared := s.(progPosted := false), ui := Idle)
  }

  // -------------------------------------------------------------------------- the invariant

  /** Questions are shown in the order in which they were asked, one at a time;
      those that were not shown are queued, or Close dropped them. */
  ghost predicate InOrder(w: World) {
    && w.asked == w.shown + w.dropped + w.shared.queue
    && (forall i, j :: 0 <= i < j < |w.asked| ==> w.asked[i] != w.asked[j])
    && (w.shared.current.Some? ==> |w.shown| > 0 && w.shared.current.value == w.shown[|w.shown| - 1])
    && (w.shared.closed ==> w.shared.queue == [] && w.shared.current.None?)
    && (!w.shared.closed ==> w.dropped == [] && !w.ui.Closing?)
    && (forall q :: q in w.asked ==> q in w.asks)
  }

  /** A reply is on its way. */
  predicate OnItsWay(w: World, q: Id) {
    (w.ui.Answering? && w.ui.q == q) || (w.ui.Closing? && q in w.ui.rest)
  }

  /** No question is lost: it is queued, shown, being answered or answered. A
      worker returns with the one reply to its question. */
  ghost predicate Accounted(w: World) {
    && (forall q :: q in w.asked ==>
          q in w.shared.queue || w.shared.current == Some(q) || OnItsWay(w, q) || q in w.replies)
    && (forall q :: q in w.asks && w.asks[q].Returned? ==>
          if q in w.asked then q in w.replies && w.replies[q] == w.asks[q].answer else w.asks[q].answer == Cancelled)
    && (forall q :: q in w.asks && q !in w.asked ==> w.asks[q].Returned?)
  }

  /** A question that waits while none is shown will be noticed. */
  ghost predicate Noticed(w: World) {
    w.shared.queue != [] && w.shared.current.None? ==>
      || w.notes > 0 || w.ui == Reposting || (w.ui.Answering? && w.ui.more)
      || exists q :: q in w.shared.queue && q in w.asks && w.asks[q] == Queued
  }

  /** What Close took gets the cancel answer and no other. */
  ghost predicate Cancels(w: World) {
    && (forall q :: (q in w.shared.queue || w.shared.current == Some(q)) ==>
          q !in w.replies && !OnItsWay(w, q) && q !in w.cancelled && q in w.asked)
    && (forall q :: q in w.cancelled ==>
          && (q in w.replies ==> w.replies[q] == Cancelled)
          && (q in w.replies || (w.ui.Closing? && q in w.ui.rest)))
    && (w.ui.Answering? ==> w.ui.q in w.shown)
    && (w.ui.Closing? ==> forall q :: q in w.ui.rest ==> q in w.cancelled)
    && (forall q :: q in w.replies || q in w.cancelled || q in w.shown ==> q in w.asked)
  }

  /** Nothing that was written is lost, and at most one output message is on its way. */
  ghost predicate Coalesced(w: World) {
    && w.taken + w.shared.output == w.written
    && (w.shared.output != "" ==> w.shared.outPosted)
    && w.outNotes + w.outPosting + (if w.ui == ReadingOutput then 1 else 0) == (if w.shared.outPosted then 1 else 0)
    && w.shared.progress == w.reported
    && w.progNotes + w.progPosting + (if w.ui == ReadingProgress then 1 else 0) == (if w.shared.progPosted then 1 else 0)
  }

  ghost predicate Questions(w: World) { InOrder(w) && Accounted(w) && Noticed(w) && Cancels(w) }

  ghost predicate Inv(w: World) { Questions(w) && Coalesced(w) }

  lemma StartHolds()
    ensures Inv(START)
  {
  }

  lemma OutputKept(w: World, e: Event)
    requires Enabled(w, e) && IsQuiet(e) && Coalesced(w)
    ensures Coalesced(Apply(w, e))
  {
    match e
    case Write(p) =>
      assert w.taken + (w.shared.output + p) == w.taken + w.shared.output + p;
    case ReadOutput =>
      assert w.taken + w.shared.output + "" == w.taken + w.shared.output;
    case _ =>
  }

  lemma OutputUntouched(w: World, e: Event)
    requires Enabled(w, e) && !IsQuiet(e) && Coalesced(w)
    ensures Coalesced(Apply(w, e))
  {
    var v := Apply(w, e);
    assert v.taken == w.taken && v.written == w.written && v.reported == w.reported;
    assert v.outNotes == w.outNotes && v.outPosting == w.outPosting;
    assert v.progNotes == w.progNotes && v.progPosting == w.progPosting;
    assert v.shared == w.shared.(queue := v.shared.queue, current := v.shared.current, closed := v.shared.closed);
  }

  // ----------------------------------------------------------- steps about the questions

  lemma AskKept(w: World, q: Id)
    requires Enabled(w, Ask(q)) && Questions(w)
    ensures Questions(Apply(w, Ask(q)))
  {
    var v := Apply(w, Ask(q));
    if !w.shared.closed {
      assert v.asked == v.shown + v.dropped + v.shared.queue;
      assert q in v.shared.queue;
    }
  }

  lemma PostQuestionKept(w: World, q: Id)
    requires Enabled(w, PostQuestion(q)) && Questions(w)
    ensures Questions(Apply(w, PostQuestion(q)))
  {
  }

  lemma ReturnKept(w: World, q: Id)
    requires Enabled(w, Return(q)) && Questions(w)
    ensures Questions(Apply(w, Return(q)))
  {
    NoticedStays(w, Apply(w, Return(q)));
  }

  lemma NoticedStays(w: World, v: World)
    requires Noticed(w) && v.shared.queue == w.shared.queue && v.shared.current == w.shared.current
    requires v.notes == w.notes && v.ui == w.ui
    requires forall q :: q in w.asks && w.asks[q] == Queued ==> q in v.asks && v.asks[q] == Queued
    ensures Noticed(v)
  {
  }

  lemma HandleQuestionKept(w: World)
    requires Enabled(w, HandleQuestion) && Questions(w)
    ensures Questions(Apply(w, HandleQuestion))
  {
    var v := Apply(w, HandleQuestion);
    if w.shared.queue != [] && w.shared.current.None? {
      assert w.dropped == [];
      assert w.asked == w.shown + w.shared.queue;
      assert v.asked == v.shown + v.dropped + v.shared.queue;
    }
  }

  lemma CallbackKept(w: World, q: Id, value: int)
    requires Enabled(w, Callback(q, value)) && Questions(w)
    ensures Questions(Apply(w, Callback(q, value)))
  {
    QueuedIsNotShown(w);
  }

  lemma QueuedIsNotShown(w: World)
    requires InOrder(w)
    ensures forall q :: q in w.shared.queue ==> q !in w.shown
  {
    var k := |w.shown| + |w.dropped|;
    forall i, j | 0 <= i < |w.shown| && 0 <= j < |w.shared.queue|
      ensures w.shown[i] != w.shared.queue[j]
    {
      assert w.asked[i] == w.shown[i] && w.asked[k + j] == w.shared.queue[j];
    }
  }

  lemma SendReplyKept(w: World)
    requires Enabled(w, SendReply) && Questions(w)
    ensures Questions(Apply(w, SendReply))
  {
  }

  lemma RepostKept(w: World)
    requires Enabled(w, Repost) && Questions(w)
    ensures Questions(Apply(w, Repost))
  {
  }

  lemma CloseKept(w: World)
    requires Enabled(w, Close) && Questions(w)
    ensures Questions(Apply(w, Close))
  {
  }

  lemma CancelNextKept(w: World)
    requires Enabled(w, CancelNext) && Questions(w)
    ensures Questions(Apply(w, CancelNext))
  {
    var v, rest := Apply(w, CancelNext), w.ui.rest;
    assert v.shared == w.shared && v.asks == w.asks && v.asked == w.asked && v.shown == w.shown && v.dropped == w.dropped;
    assert v.cancelled == w.cancelled && v.ui == (if rest == [] then Idle else Closing(rest[1..]));
    assert v.replies == if rest == [] then w.replies else Reply(w.replies, rest[0], Cancelled);
    hide Apply, Enabled;
    assert forall q :: q in rest ==> q == rest[0] || q in rest[1..];
    CancelOneOrder(w, v);
    CancelOneAccounted(w, v);
    CancelOneCancels(w, v);
  }

  lemma CancelOneOrder(w: World, v: World)
    requires InOrder(w) && w.ui.Closing? && v.shared == w.shared && v.asks == w.asks
    requires v.asked == w.asked && v.shown == w.shown && v.dropped == w.dropped
    ensures InOrder(v) && Noticed(v)
  {
  }

  lemma CancelOneAccounted(w: World, v: World)
    requires InOrder(w) && Accounted(w) && Cancels(w) && w.ui.Closing?
    requires v.shared == w.shared && v.asks == w.asks && v.asked == w.asked
    requires if w.ui.rest == [] then v.ui == Idle && v.replies == w.replies
             else v.ui == Closing(w.ui.rest[1..]) && v.replies == Reply(w.replies, w.ui.rest[0], Cancelled)
    requires forall q :: q in w.ui.rest ==> q == w.ui.rest[0] || q in w.ui.rest[1..]
    ensures Accounted(v)
  {
    hide InOrder;
  }

  lemma CancelOneCancels(w: World, v: World)
    requires InOrder(w) && Cancels(w) && w.ui.Closing?
    requires v.shared == w.shared && v.asked == w.asked && v.cancelled == w.cancelled && v.shown == w.shown
    requires if w.ui.rest == [] then v.ui == Idle && v.replies == w.replies
             else v.ui == Closing(w.ui.rest[1..]) && v.replies == Reply(w.replies, w.ui.rest[0], Cancelled)
    requires forall q :: q in w.ui.rest ==> q == w.ui.rest[0] || q in w.ui.rest[1..]
    ensures Cancels(v)
  {
  }

  /** The steps about output and progress. */
  predicate IsQuiet(e: Event) {
    e.Write? || e.PostOutput? || e.HandleOutput? || e.ReadOutput?
    || e.Progress? || e.PostProgress? || e.HandleProgress? || e.ReadProgress?
  }

  lemma QuietKept(w: World, e: Event)
    requires Enabled(w, e) && IsQuiet(e) && Questions(w)
    ensures Questions(Apply(w, e))
  {
    var v := Apply(w, e);
    assert SameQuestions(w, v);
    hide Apply, Enabled, IsQuiet, SameQuestions;
    QuestionsStay(w, v);
  }

  /** Nothing changed but output, progress, and whether the UI thread reads one of them. */
  ghost predicate SameQuestions(w: World, v: World) {
    && v.shared.queue == w.shared.queue && v.shared.current == w.shared.current && v.shared.closed == w.shared.closed
    && v.asks == w.asks && v.replies == w.replies && v.notes == w.notes && v.cancelled == w.cancelled
    && v.asked == w.asked && v.shown == w.shown && v.dropped == w.dropped
    && (v.ui == w.ui || (!w.ui.Answering? && !w.ui.Closing? && w.ui != Reposting
                         && !v.ui.Answering? && !v.ui.Closing? && v.ui != Reposting))
  }

  lemma QuestionsStay(w: World, v: World)
    requires Questions(w) && SameQuestions(w, v)
    ensures Questions(v)
  {
  }

  // --------------------------------------------------------------------------- the theorems

  lemma StepKeepsInv(w: World, e: Event)
    requires Enabled(w, e) && Inv(w)
    ensures Inv(Apply(w, e))
  {
    if IsQuiet(e) {
      OutputKept(w, e);
    } else {
      OutputUntouched(w, e);
    }
    hide Questions, Coalesced, Apply;
    match e
    case Ask(q) => AskKept(w, q);
    case PostQuestion(q) => PostQuestionKept(w, q);
    case Return(q) => ReturnKept(w, q);
    case HandleQuestion => HandleQuestionKept(w);
    case Callback(q, v) => CallbackKept(w, q, v);
    case SendReply => SendReplyKept(w);
    case Repost => RepostKept(w);
    case Close => CloseKept(w);
    case CancelNext => CancelNextKept(w);
    case _ => QuietKept(w, e);
  }

  /** A run: steps of workers and the UI thread in any interleaving. */
  ghost predicate IsRun(w: World, events: seq<Event>, v: World)
    decreases |events|
  {
    if events == [] then w == v
    else Enabled(w, events[0]) && IsRun(Apply(w, events[0]), events[1..], v)
  }

  lemma {:induction false} RunKeepsInv(w: World, events: seq<Event>, v: World)
    requires Inv(w) && IsRun(w, events, v)
    ensures Inv(v)
    decreases |events|
  {
    hide Inv, Enabled, Apply;
    if events != [] {
      StepKeepsInv(w, events[0]);
      RunKeepsInv(Apply(w, events[0]), events[1..], v);
    }
  }

  /** The user chose v for question q, and it was the first choice for q. */
  ghost predicate FirstChoice(events: seq<Event>, q: Id, v: int) {
    exists k :: 0 <= k < |events| && events[k] == Callback(q, v) && NoChoice(events[..k], q)
  }

  predicate NoChoice(events: seq<Event>, q: Id) { forall j :: 0 <= j < |events| ==> !(events[j].Callback? && events[j].q == q) }

  lemma ChoiceStays(past: seq<Event>, e: Event, q: Id, v: int)
    ensures FirstChoice(past, q, v) ==> FirstChoice(past + [e], q, v)
    ensures NoChoice(past, q) && e == Callback(q, v) ==> FirstChoice(past + [e], q, v)
    ensures NoChoice(past + [e], q) <==> NoChoice(past, q) && !(e.Callback? && e.q == q)
  {
    if FirstChoice(past, q, v) {
      var k :| 0 <= k < |past| && past[k] == Callback(q, v) && NoChoice(past[..k], q);
      assert (past + [e])[..k] == past[..k];
      assert (past + [e])[k] == Callback(q, v);
    }
    if NoChoice(past, q) && e == Callback(q, v) {
      assert (past + [e])[..|past|] == past && (past + [e])[|past|] == Callback(q, v);
    }
    if NoChoice(past + [e], q) {
      assert (past + [e])[|past|] == e;
      assert forall j :: 0 <= j < |past| ==> (past + [e])[j] == past[j];
    }
  }

  lemma ChoicesStay(past: seq<Event>, e: Event)
    ensures forall q, v :: FirstChoice(past, q, v) ==> FirstChoice(past + [e], q, v)
    ensures e.Callback? && NoChoice(past, e.q) ==> FirstChoice(past + [e], e.q, e.value)
    ensures forall q :: NoChoice(past, q) && !(e.Callback? && e.q == q) ==> NoChoice(past + [e], q)
    ensures forall q :: NoChoice(past + [e], q) ==> NoChoice(past, q) && !(e.Callback? && e.q == q)
  {
    hide FirstChoice, NoChoice;
    forall q, v
      ensures FirstChoice(past, q, v) ==> FirstChoice(past + [e], q, v)
    {
      ChoiceStays(past, e, q, v);
    }
    forall q
      ensures NoChoice(past + [e], q) <==> NoChoice(past, q) && !(e.Callback? && e.q == q)
    {
      ChoiceStays(past, e, q, 0);
    }
    if e.Callback? {
      ChoiceStays(past, e, e.q, e.value);
    }
  }

  /** What a reply carries goes back to what the user chose. */
  ghost predicate Answered(past: seq<Event>, w: World) {
    && (forall q :: q in w.replies && q !in w.cancelled ==>
          w.replies[q].Given? && FirstChoice(past, q, w.replies[q].value))
    && (w.ui.Answering? && w.ui.q !in w.replies && w.ui.q !in w.cancelled ==>
          w.ui.answer.Given? && FirstChoice(past, w.ui.q, w.ui.answer.value))
    && (forall q :: NoChoice(past, q) || q in w.replies || q in w.cancelled || (w.ui.Answering? && w.ui.q == q))
  }

  lemma StepKeepsAnswered(past: seq<Event>, w: World, e: Event)
    requires Enabled(w, e) && Cancels(w) && Answered(past, w)
    ensures Answered(past + [e], Apply(w, e))
  {
    hide Answered, Cancels;
    match e
    case Callback(q, v) => CallbackAnswers(past, w, q, v);
    case SendReply => SendReplyAnswers(past, w);
    case CancelNext => CancelNextAnswers(past, w);
    case _ =>
      AnsweredStays(past, w, e, Apply(w, e));
  }

  lemma CallbackAnswers(past: seq<Event>, w: World, q: Id, v: int)
    requires Enabled(w, Callback(q, v)) && Answered(past, w)
    ensures Answered(past + [Callback(q, v)], Apply(w, Callback(q, v)))
  {
    ChoicesStay(past, Callback(q, v));
    hide FirstChoice, NoChoice;
  }

  lemma SendReplyAnswers(past: seq<Event>, w: World)
    requires Enabled(w, SendReply) && Answered(past, w)
    ensures Answered(past + [SendReply], Apply(w, SendReply))
  {
    ChoicesStay(past, SendReply);
    hide FirstChoice, NoChoice;
  }

  lemma CancelNextAnswers(past: seq<Event>, w: World)
    requires Enabled(w, CancelNext) && Cancels(w) && Answered(past, w)
    ensures Answered(past + [CancelNext], Apply(w, CancelNext))
  {
    ChoicesStay(past, CancelNext);
    hide FirstChoice, NoChoice;
  }

  /** A step that sends no reply and hears no choice. */
  lemma AnsweredStays(past: seq<Event>, w: World, e: Event, v: World)
    requires Answered(past, w) && !e.Callback? && v.replies == w.replies && w.cancelled <= v.cancelled
    requires v.ui == w.ui || (!w.ui.Answering? && !v.ui.Answering?)
    ensures Answered(past + [e], v)
  {
    ChoicesStay(past, e);
    hide FirstChoice, NoChoice;
  }

  lemma {:induction false} RunKeepsAnswered(past: seq<Event>, w: World, events: seq<Event>, v: World)
    requires Inv(w) && Answered(past, w) && IsRun(w, events, v)
    ensures Answered(past + events, v)
    decreases |events|
  {
    hide Accounted, Coalesced, InOrder, Noticed, Cancels, Enabled, Apply, Answered;
    if events == [] {
      assert past + events == past;
    } else {
      StepKeepsAnswered(past, w, events[0]);
      StepKeepsInv(w, events[0]);
      RunKeepsAnswered(past + [events[0]], Apply(w, events[0]), events[1..], v);
      assert past + [events[0]] + events[1..] == past + events;
    }
  }

  /** A reply that Close did not send is the first choice of the user for its
      question, and the worker comes back with it. */
  lemma AnswersAreChoices(events: seq<Event>, w: World)
    requires IsRun(START, events, w)
    ensures forall q :: q in w.replies && q !in w.cancelled ==>
              w.replies[q].Given? && FirstChoice(events, q, w.replies[q].value)
    ensures forall q :: q in w.asked && q in w.asks && w.asks[q].Returned? && q !in w.cancelled ==>
              w.asks[q].answer.Given? && FirstChoice(events, q, w.asks[q].answer.value)
    ensures forall q :: q in w.replies && w.replies[q].Given? ==> Callback(q, w.replies[q].value) in events
  {
    StartHolds();
    RunKeepsInv(START, events, w);
    RunKeepsAnswered([], START, events, w);
    assert [] + events == events;
    hide IsRun;
  }

  /** In every interleaving: questions are shown in the order they were asked, a
      question shown before the current one has its reply or is getting it; every
      worker that returned has the one reply sent for its question, and the cancel
      answer when Close came before the question was answered; a question that
      waits while none is shown has a message posted or about to be posted; what
      was written is what was taken and what is buffered; and at most one output
      message is posted and not yet handled. */
  lemma BridgeProtocol(events: seq<Event>, w: World)
    requires IsRun(START, events, w)
    ensures w.shown <= w.asked
    ensures forall q :: q in w.shown && w.shared.current != Some(q) ==> q in w.replies || OnItsWay(w, q)
    ensures forall q :: q in w.asked && q in w.asks && w.asks[q].Returned? ==> q in w.replies && w.asks[q].answer == w.replies[q]
    ensures forall q :: q in w.asks && w.asks[q].Returned? && (q in w.cancelled || q !in w.asked) ==>
              w.asks[q].answer == Cancelled
    ensures forall q :: q in w.replies && w.replies[q].Given? ==> q !in w.cancelled
    ensures w.shared.queue != [] && w.shared.current.None? ==>
              || w.notes > 0 || w.ui == Reposting || (w.ui.Answering? && w.ui.more)
              || exists q :: q in w.shared.queue && q in w.asks && w.asks[q] == Queued
    ensures w.taken + w.shared.output == w.written && w.outNotes <= 1
    ensures w.shared.progress == w.reported && w.progNotes <= 1
  {
    StartHolds();
    RunKeepsInv(START, events, w);
    QueuedIsNotShown(w);
    hide IsRun;
    assert w.asked[..|w.shown|] == w.shown;
  }

  /** A reply, once sent, is the only one. */
  lemma {:induction false} RepliesStay(w: World, events: seq<Event>, v: World, q: Id)
    requires IsRun(w, events, v) && q in w.replies
    ensures q in v.replies && v.replies[q] == w.replies[q]
    decreases |events|
  {
    if events != [] {
      assert q in Apply(w, events[0]).replies && Apply(w, events[0]).replies[q] == w.replies[q];
      hide Apply, Enabled;
      RepliesStay(Apply(w, events[0]), events[1..], v, q);
    }
  }

  /** Nobody waits for ever: while a question is unanswered, it is shown to the
      user, or the bridge has a step to make that leads there. */
  lemma NeverStuck(events: seq<Event>, w: World, q: Id)
    requires IsRun(START, events, w) && q in w.asked && q !in w.replies
    ensures w.shared.current.Some? || w.ui != Idle || Enabled(w, HandleQuestion)
            || exists p :: p in w.shared.queue && Enabled(w, PostQuestion(p))
  {
    StartHolds();
    RunKeepsInv(START, events, w);
    hide IsRun;
    if w.shared.current.None? && w.ui == Idle {
      assert q in w.shared.queue;
      if w.notes == 0 {
        var p :| p in w.shared.queue && p in w.asks && w.asks[p] == Queued;
        assert Enabled(w, PostQuestion(p));
      }
    }
  }

  /** A shown question whose worker waits can be answered with any value, and the worker
      then comes back with it. */
  lemma ChoiceArrives(events: seq<Event>, w: World, q: Id, v: int)
    requires IsRun(START, events, w) && w.ui == Idle && w.shared.current == Some(q)
    requires q in w.asks && w.asks[q] == Waiting
    ensures Enabled(w, Callback(q, v))
    ensures var heard := Apply(w, Callback(q, v));
            && Enabled(heard, SendReply)
            && var replied := Apply(heard, SendReply);
               Enabled(replied, Return(q)) && Apply(replied, Return(q)).asks[q] == Returned(Given(v))
  {
    StartHolds();
    RunKeepsInv(START, events, w);
    hide IsRun, Noticed, Accounted, Coalesced;
  }

  /** Once Close has finished, every question that was ever asked is answered. */
  lemma ClosedAnswersAll(events: seq<Event>, w: World)
    requires IsRun(START, events, w) && w.shared.closed && w.ui == Idle
    ensures forall q :: q in w.asked ==> q in w.replies
    ensures forall q :: q in w.cancelled ==> q in w.replies && w.replies[q] == Cancelled
  {
    StartHolds();
    RunKeepsInv(START, events, w);
    hide IsRun;
  }

  /** Unlike output and progress, questions are not coalesced: two workers that
      ask before the window handles anything have two messages posted. */
  lemma TwoQuestionMessages() returns (events: seq<Event>, w: World)
    ensures IsRun(START, events, w) && w.notes == 2
  {
    var w1 := Apply(START, Ask(0));
    var w2 := Apply(w1, Ask(1));
    var w3 := Apply(w2, PostQuestion(0));
    w := Apply(w3, PostQuestion(1));
    events := [Ask(0), Ask(1), PostQuestion(0), PostQuestion(1)];
    assert IsRun(w, [], w);
    assert IsRun(w3, [PostQuestion(1)], w);
    assert [PostQuestion(0), PostQuestion(1)][1..] == [PostQuestion(1)];
    assert IsRun(w2, [PostQuestion(0), PostQuestion(1)], w);
    assert [Ask(1), PostQuestion(0), PostQuestion(1)][1..] == [PostQuestion(0), PostQuestion(1)];
    assert IsRun(w1, [Ask(1), PostQuestion(0), PostQuestion(1)], w);
    assert events[1..] == [Ask(1), PostQuestion(0), PostQuestion(1)];
  }
}
