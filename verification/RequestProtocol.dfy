// The request protocol between one producer process and one consumer process:
// any number of channels share one FIFO of requests and one FIFO of answer
// bytes, and a single service thread answers them. The service thread finds the
// channel of a request in a list of links that the producer's main thread may be
// extending at the same time.
module RequestProtocol {
  import opened ByteRing
  import opened Runs
  import opened Traces

  // du counts data units of the channel; a conditional get is answered by a flag
  // and then, only if the flag is set, by the data.
  datatype Request = Get(tag: nat, du: nat) | CondGet(tag: nat, du: nat) | Kill(tag: nat)

  datatype Reply = Reply(tag: nat, conditional: bool, available: bool, bytes: seq<byte>)

  // The stream put into a sink, and how much of it has been sent.
  datatype Sink = Sink(put: seq<byte>, sent: nat, cap: nat)

  datatype Service =
    | Idle
    | Scan(r: Request, root: int, pos: int)
    | Asleep(r: Request)
    | Woken(r: Request)
    | Serving(r: Request, at: nat)

  // links holds the tags of the link list, oldest first: the list's head is the
  // last element, the successor of node k is node k - 1, and NULL is -1. This
  // numbering is stable under insertion at the head. log and removed record what
  // has happened; no step looks at them.
  datatype State = State(
    links: seq<nat>, sinks: seq<Sink>, service: Service, clink: int, ctag: nat,
    reqs: seq<Request>, data: seq<byte>,
    sources: nat, killed: set<nat>, asked: seq<Request>, done: nat, flagged: bool, got: seq<seq<byte>>,
    log: seq<Reply>, removed: set<nat>)

  // For each tag the size of a data unit, the same at both ends, and whether the
  // producer's queue is a ring of slots of one unit; and which requests the
  // consumer's program makes.
  datatype Setup = Setup(unit: nat -> nat, slot: nat -> bool, allowed: Request -> bool)

  function Size(setup: Setup, r: Request): nat
    requires !r.Kill?
  {
    setup.unit(r.tag) * r.du
  }

  // What the service thread takes to be asked for: a slot ring always sends one
  // slot, whatever du is.
  function AnswerSize(setup: Setup, r: Request): nat
    requires !r.Kill?
  {
    if setup.slot(r.tag) then setup.unit(r.tag) else Size(setup, r)
  }

  // Both ends mean the same number of bytes.
  predicate Sized(setup: Setup, r: Request) {
    !r.Kill? ==> AnswerSize(setup, r) == Size(setup, r)
  }

  // The program asks slot rings for one unit at a time.
  ghost predicate AsksOneSlot(setup: Setup) {
    forall r: Request :: setup.allowed(r) && !r.Kill? && setup.slot(r.tag) && setup.unit(r.tag) > 0 ==> r.du == 1
  }

  lemma AllowedSized(setup: Setup, r: Request)
    requires AsksOneSlot(setup) && setup.allowed(r)
    ensures Sized(setup, r)
  {
  }

  // Whether the consumer expects any bytes to come back for this request.
  predicate HasReply(setup: Setup, r: Request) {
    r.CondGet? || (r.Get? && Size(setup, r) > 0)
  }

  function Unsent(k: Sink): seq<byte> {
    if k.sent <= |k.put| then k.put[k.sent..] else []
  }

  function FlagSet(f: seq<byte>): bool {
    exists k :: 0 <= k < |f| && f[k] != 0
  }

  ghost predicate Start(s: State) {
    && s.links == [] && s.sinks == [] && s.service == Idle && s.clink == -1
    && s.reqs == [] && s.data == [] && s.sources == 0 && s.killed == {} && s.asked == []
    && s.done == 0 && !s.flagged && s.got == [] && s.log == [] && s.removed == {}
  }

  // The main thread of the producer creates sinks and puts; the service thread
  // takes requests, scans the list one link at a time without the lock, and
  // answers; the main thread of the consumer creates sources, sends requests,
  // possibly several before it reads, and reads the answers.
  datatype Event =
    | CreateSink(cap: nat) | Put(tag: nat, x: seq<byte>)
    | Take | Look | SpuriousWake | Rescan | Answer
    | CreateSource | Ask(r: Request) | Destroy(tag: nat) | ReadFlag | ReadData

  predicate Enabled(s: State, setup: Setup, e: Event) {
    match e
    case CreateSink(_) => true
    case Put(t, x) =>
      && t < |s.sinks| && t !in s.removed && |Unsent(s.sinks[t])| + |x| <= s.sinks[t].cap
      && (setup.slot(t) ==> |x| == setup.unit(t))
    case Take => s.service.Idle? && s.reqs != [] && (s.reqs[0].Kill? ==> s.reqs[0].tag in s.links)
    case Look => s.service.Scan? && s.service.pos < |s.links|
    case SpuriousWake => s.service.Asleep?
    case Rescan => s.service.Woken?
    case Answer =>
      && s.service.Serving? && !s.service.r.Kill?
      && s.service.at < |s.links| && s.links[s.service.at] < |s.sinks|
      && (s.service.r.Get? ==> |Unsent(s.sinks[s.links[s.service.at]])| >= AnswerSize(setup, s.service.r))
    case CreateSource => true
    case Ask(r) => !r.Kill? && r.tag < s.sources && r.tag !in s.killed && setup.allowed(r)
    case Destroy(t) => t < s.sources && t !in s.killed
    case ReadFlag => s.done < |s.asked| && s.asked[s.done].CondGet? && !s.flagged && |s.data| >= 4
    case ReadData =>
      && s.done < |s.asked| && !s.asked[s.done].Kill? && (s.asked[s.done].CondGet? ==> s.flagged)
      && s.asked[s.done].tag < |s.got| && |s.data| >= Size(setup, s.asked[s.done])
  }

  function Without(links: seq<nat>, t: nat): seq<nat> {
    if links == [] then []
    else Without(links[..|links| - 1], t) + if links[|links| - 1] == t then [] else [links[|links| - 1]]
  }

  // The search starts at the head of the list.
  function Begin(links: seq<nat>, r: Request): Service {
    Scan(r, |links| - 1, |links| - 1)
  }

  function Taken(s: State): State
    requires s.reqs != []
  {
    var r, rest := s.reqs[0], s.reqs[1..];
    if r.Kill? then
      s.(reqs := rest, links := Without(s.links, r.tag), clink := -1, removed := s.removed + {r.tag})
    else if s.clink >= 0 && r.tag == s.ctag then s.(reqs := rest, service := Serving(r, s.clink))
    else s.(reqs := rest, service := Begin(s.links, r))
  }

  function Looked(s: State): State
    requires s.service.Scan? && s.service.pos < |s.links|
  {
    var r, pos := s.service.r, s.service.pos;
    if pos >= 0 then
      if s.links[pos] == r.tag then s.(service := Serving(r, pos), clink := pos, ctag := r.tag)
      else s.(service := Scan(r, s.service.root, pos - 1))
    else if s.service.root != |s.links| - 1 then s.(service := Begin(s.links, r))
    else s.(service := Asleep(r))
  }

  // What the service thread answers from the channel it has found.
  function ReplyTo(setup: Setup, r: Request, tag: nat, k: Sink): Reply
    requires !r.Kill?
  {
    var n := AnswerSize(setup, r);
    if |Unsent(k)| < n then Reply(tag, r.CondGet?, false, [])
    else Reply(tag, r.CondGet?, true, Unsent(k)[..n])
  }

  function Wire(reply: Reply): seq<byte> {
    (if reply.conditional then Flag(reply.available) else []) + reply.bytes
  }

  function Answered(s: State, setup: Setup): State
    requires Enabled(s, setup, Answer)
  {
    var r, tag := s.service.r, s.links[s.service.at];
    var k := s.sinks[tag];
    var reply := ReplyTo(setup, r, tag, k);
    s.(service := Idle, data := s.data + Wire(reply), sinks := s.sinks[tag := k.(sent := k.sent + |reply.bytes|)],
       log := if HasReply(setup, r) then s.log + [reply] else s.log)
  }

  function Next(s: State, setup: Setup, e: Event): State
    requires Enabled(s, setup, e)
  {
    match e
    case CreateSink(cap) =>
      s.(links := s.links + [|s.sinks|], sinks := s.sinks + [Sink([], 0, cap)],
         service := if s.service.Asleep? then Woken(s.service.r) else s.service)
    case Put(t, x) => s.(sinks := s.sinks[t := s.sinks[t].(put := s.sinks[t].put + x)])
    case Take => Taken(s)
    case Look => Looked(s)
    case SpuriousWake => s.(service := Woken(s.service.r))
    case Rescan => s.(service := Begin(s.links, s.service.r))
    case Answer => Answered(s, setup)
    case CreateSource => s.(sources := s.sources + 1, got := s.got + [[]])
    case Ask(r) => s.(reqs := s.reqs + [r], asked := if HasReply(setup, r) then s.asked + [r] else s.asked)
    case Destroy(t) => s.(reqs := s.reqs + [Kill(t)], killed := s.killed + {t})
    case ReadFlag =>
      if FlagSet(s.data[..4]) then s.(data := s.data[4..], flagged := true)
      else s.(data := s.data[4..], done := s.done + 1)
    case ReadData =>
      var r := s.asked[s.done];
      var n := Size(setup, r);
      s.(data := s.data[n..], done := s.done + 1, flagged := false, got := s.got[r.tag := s.got[r.tag] + s.data[..n]])
  }

  ghost predicate Step(s: State, s': State, setup: Setup) {
    exists e :: Enabled(s, setup, e) && s' == Next(s, setup, e)
  }

  // --- The invariant, part by part ---

  // The list holds each created and not destroyed tag exactly once.
  ghost predicate LinksOk(links: seq<nat>, created: nat, removed: set<nat>) {
    && (forall i, j :: 0 <= i < j < |links| ==> links[i] != links[j])
    && (forall t: nat :: t in links <==> t < created && t !in removed)
    && (forall t: nat :: t in removed ==> t < created)
  }

  ghost predicate LinkInv(s: State) {
    LinksOk(s.links, |s.sinks|, s.removed)
  }

  // The cached link is the one a search would find; a scan has passed only links
  // of other tags; the thread sleeps only while its tag is absent.
  ghost predicate SearchOk(links: seq<nat>, removed: set<nat>, service: Service, clink: int, ctag: nat) {
    && -1 <= clink < |links|
    && (clink >= 0 ==> links[clink] == ctag)
    && (!service.Idle? ==> !service.r.Kill? && service.r.tag !in removed)
    && match service
       case Scan(r, root, pos) =>
         -1 <= pos <= root < |links| && forall k :: pos < k <= root ==> links[k] != r.tag
       case Asleep(r) => r.tag !in links
       case Serving(r, at) => at < |links| && links[at] == r.tag
       case _ => true
  }

  ghost predicate SearchInv(s: State) {
    SearchOk(s.links, s.removed, s.service, s.clink, s.ctag)
  }

  // No request follows the one that destroys its channel.
  ghost predicate RequestsOk(reqs: seq<Request>, removed: set<nat>, killed: set<nat>, sources: nat) {
    && (forall i :: 0 <= i < |reqs| ==> reqs[i].tag !in removed && reqs[i].tag < sources)
    && (forall i :: 0 <= i < |reqs| && reqs[i].Kill? ==> reqs[i].tag in killed)
    && (forall i, j :: 0 <= i < j < |reqs| && reqs[i].Kill? ==> reqs[j].tag != reqs[i].tag)
  }

  ghost predicate RequestInv(s: State) {
    && s.removed <= s.killed
    && |s.got| == s.sources
    && RequestsOk(s.reqs, s.removed, s.killed, s.sources)
    && (!s.service.Idle? ==> s.service.r.tag < s.sources)
    && (forall i :: 0 <= i < |s.asked| ==> s.asked[i].tag < s.sources)
  }

  function Replied(setup: Setup, rs: seq<Request>): seq<Request> {
    if rs == [] then []
    else Replied(setup, rs[..|rs| - 1]) + if HasReply(setup, rs[|rs| - 1]) then [rs[|rs| - 1]] else []
  }

  function InService(s: State): seq<Request> {
    if s.service.Idle? then [] else [s.service.r]
  }

  function Wires(log: seq<Reply>): seq<byte> {
    if log == [] then [] else Wire(log[0]) + Wires(log[1..])
  }

  predicate Answers(setup: Setup, r: Request, reply: Reply) {
    && HasReply(setup, r) && reply.tag == r.tag && reply.conditional == r.CondGet?
    && (r.Get? ==> reply.available)
    && |reply.bytes| == if reply.available then Size(setup, r) else 0
  }

  // The bytes of the answers sent from the one numbered done on, without its flag
  // if that has been read.
  function Due(log: seq<Reply>, done: nat, flagged: bool): seq<byte>
    requires done <= |log| && (flagged ==> done < |log|)
  {
    if flagged then log[done].bytes + Wires(log[done + 1..]) else Wires(log[done..])
  }

  // The i-th answer ever sent answers the i-th request ever sent that has one;
  // the rest of the requests are under way, in order; and the data FIFO is the
  // answers the consumer has not read yet.
  ghost predicate AnswersInOrder(setup: Setup, asked: seq<Request>, log: seq<Reply>, done: nat, flagged: bool,
                                 data: seq<byte>, pending: seq<Request>) {
    && done <= |log| <= |asked|
    && (forall i :: 0 <= i < |log| ==> Answers(setup, asked[i], log[i]))
    && asked[|log|..] == Replied(setup, pending)
    && (flagged ==> done < |log| && log[done].conditional && log[done].available)
    && data == Due(log, done, flagged)
  }

  ghost predicate AllAllowed(setup: Setup, pending: seq<Request>) {
    forall i :: 0 <= i < |pending| ==> pending[i].Kill? || setup.allowed(pending[i])
  }

  function Pending(s: State): seq<Request> {
    InService(s) + s.reqs
  }

  ghost predicate Framed(s: State, setup: Setup) {
    AnswersInOrder(setup, s.asked, s.log, s.done, s.flagged, s.data, Pending(s))
  }

  ghost predicate FrameInv(s: State, setup: Setup) {
    Framed(s, setup) && AllAllowed(setup, Pending(s))
  }

  // All bytes sent for one channel.
  function Stream(log: seq<Reply>, t: nat): seq<byte> {
    if log == [] then []
    else Stream(log[..|log| - 1], t) + if log[|log| - 1].tag == t then log[|log| - 1].bytes else []
  }

  ghost predicate StreamOk(sinks: seq<Sink>, log: seq<Reply>, done: nat, got: seq<seq<byte>>) {
    && done <= |log|
    && (forall i :: 0 <= i < |log| ==> log[i].tag < |sinks|)
    && (forall t :: 0 <= t < |sinks| ==>
          sinks[t].sent <= |sinks[t].put| && Stream(log, t) == sinks[t].put[..sinks[t].sent])
    && (forall t :: 0 <= t < |got| ==> got[t] == Stream(log[..done], t))
  }

  ghost predicate StreamInv(s: State) {
    StreamOk(s.sinks, s.log, s.done, s.got)
  }

  ghost predicate Inv(s: State, setup: Setup) {
    && AsksOneSlot(setup)
    && LinkInv(s) && SearchInv(s) && RequestInv(s) && FrameInv(s, setup) && StreamInv(s)
  }

  // --- Links and search ---

  lemma {:induction false} WithoutKeeps(links: seq<nat>, t: nat)
    requires forall i, j :: 0 <= i < j < |links| ==> links[i] != links[j]
    ensures var w := Without(links, t);
      && (forall x: nat :: x in w <==> x in links && x != t)
      && (forall i, j :: 0 <= i < j < |w| ==> w[i] != w[j])
  {
    if links != [] {
      var front, last := links[..|links| - 1], links[|links| - 1];
      WithoutKeeps(front, t);
      assert last !in front;
      assert links == front + [last];
    }
  }

  // Removal keeps the other links in their order.
  lemma WithoutGrows(links: seq<nat>, x: nat, t: nat)
    ensures Without([], t) == [] && Without(links + [x], t) == Without(links, t) + if x == t then [] else [x]
  {
    assert (links + [x])[..|links + [x]| - 1] == links;
  }

  ghost predicate Moves(s: State, s': State, setup: Setup, e: Event) {
    Enabled(s, setup, e) && s' == Next(s, setup, e)
  }

  lemma LinkKept(s: State, s': State, setup: Setup, e: Event)
    requires LinkInv(s) && Moves(s, s', setup, e)
    ensures LinkInv(s')
  {
    if e.CreateSink? {
      CreateKeepsLinks(s.links, s.sinks, s.removed, e.cap);
    } else if e.Take? && s.reqs[0].Kill? {
      WithoutKeeps(s.links, s.reqs[0].tag);
      assert s'.links == Without(s.links, s.reqs[0].tag) && s'.removed == s.removed + {s.reqs[0].tag};
    } else {
      assert s'.links == s.links && |s'.sinks| == |s.sinks| && s'.removed == s.removed;
    }
  }

  lemma CreateKeepsLinks(links: seq<nat>, sinks: seq<Sink>, removed: set<nat>, cap: nat)
    requires LinksOk(links, |sinks|, removed)
    ensures LinksOk(links + [|sinks|], |sinks + [Sink([], 0, cap)]|, removed)
  {
    assert |sinks| !in links;
  }

  lemma InsertKeepsSearch(links: seq<nat>, removed: set<nat>, service: Service, clink: int, ctag: nat, t: nat)
    requires SearchOk(links, removed, service, clink, ctag)
    ensures SearchOk(links + [t], removed, if service.Asleep? then Woken(service.r) else service, clink, ctag)
  {
  }

  lemma BeginKeepsSearch(links: seq<nat>, removed: set<nat>, r: Request, clink: int, ctag: nat)
    requires -1 <= clink < |links| && (clink >= 0 ==> links[clink] == ctag) && !r.Kill? && r.tag !in removed
    ensures SearchOk(links, removed, Begin(links, r), clink, ctag)
  {
  }

  lemma LookKeepsSearch(s: State, s': State, setup: Setup)
    requires SearchInv(s) && Moves(s, s', setup, Look)
    ensures SearchInv(s')
  {
    if s.service.pos < 0 {
      BeginKeepsSearch(s.links, s.removed, s.service.r, s.clink, s.ctag);
    }
  }

  lemma TakeKeepsSearch(s: State, s': State, setup: Setup)
    requires SearchInv(s) && Moves(s, s', setup, Take) && s.reqs[0].tag !in s.removed
    ensures SearchInv(s')
  {
    if !s.reqs[0].Kill? {
      BeginKeepsSearch(s.links, s.removed, s.reqs[0], s.clink, s.ctag);
    }
  }

  lemma SearchKept(s: State, s': State, setup: Setup, e: Event)
    requires SearchInv(s) && Moves(s, s', setup, e)
    requires e.Take? ==> s.reqs[0].tag !in s.removed
    ensures SearchInv(s')
  {
    match e
    case CreateSink(_) => InsertKeepsSearch(s.links, s.removed, s.service, s.clink, s.ctag, |s.sinks|);
    case Take => TakeKeepsSearch(s, s', setup);
    case Look => LookKeepsSearch(s, s', setup);
    case Rescan => BeginKeepsSearch(s.links, s.removed, s.service.r, s.clink, s.ctag);
    case _ =>
  }

  lemma AppendKeepsRequests(reqs: seq<Request>, removed: set<nat>, killed: set<nat>, sources: nat, r: Request)
    requires RequestsOk(reqs, removed, killed, sources) && removed <= killed
    requires r.tag !in killed && r.tag < sources
    ensures RequestsOk(reqs + [r], removed, if r.Kill? then killed + {r.tag} else killed, sources)
  {
  }

  lemma TakeKeepsRequests(reqs: seq<Request>, removed: set<nat>, killed: set<nat>, sources: nat)
    requires RequestsOk(reqs, removed, killed, sources) && reqs != []
    ensures RequestsOk(reqs[1..], if reqs[0].Kill? then removed + {reqs[0].tag} else removed, killed, sources)
  {
  }

  lemma TakeKeepsRequestInv(s: State, s': State, setup: Setup)
    requires RequestInv(s) && Moves(s, s', setup, Take)
    ensures RequestInv(s')
  {
    TakeKeepsRequests(s.reqs, s.removed, s.killed, s.sources);
    assert s.reqs[0].tag < s.sources && (s.reqs[0].Kill? ==> s.reqs[0].tag in s.killed);
  }

  lemma SendKeepsRequestInv(s: State, s': State, setup: Setup, e: Event)
    requires RequestInv(s) && Moves(s, s', setup, e) && (e.Ask? || e.Destroy?)
    ensures RequestInv(s')
  {
    AppendKeepsRequests(s.reqs, s.removed, s.killed, s.sources, if e.Ask? then e.r else Kill(e.tag));
  }

  lemma RequestKept(s: State, s': State, setup: Setup, e: Event)
    requires RequestInv(s) && Moves(s, s', setup, e)
    ensures RequestInv(s')
  {
    match e
    case Take => TakeKeepsRequestInv(s, s', setup);
    case Ask(_) => SendKeepsRequestInv(s, s', setup, e);
    case Destroy(_) => SendKeepsRequestInv(s, s', setup, e);
    case CreateSource =>
    case _ =>
      assert s'.reqs == s.reqs && s'.asked == s.asked && s'.sources == s.sources && |s'.got| == |s.got|;
  }

  // --- Framing ---

  lemma {:induction false} WiresAppend(log: seq<Reply>, reply: Reply)
    ensures Wires(log + [reply]) == Wires(log) + Wire(reply)
  {
    if log == [] {
      assert Wires([reply]) == Wire(reply) + Wires([]);
    } else {
      WiresAppend(log[1..], reply);
      assert (log + [reply])[1..] == log[1..] + [reply];
    }
  }

  lemma {:induction false} RepliedSplits(setup: Setup, a: seq<Request>, b: seq<Request>)
    ensures Replied(setup, a + b) == Replied(setup, a) + Replied(setup, b)
  {
    if b == [] {
      assert a + b == a;
    } else {
      RepliedSplits(setup, a, b[..|b| - 1]);
      assert (a + b)[..|a + b| - 1] == a + b[..|b| - 1];
    }
  }

  lemma RepliedOne(setup: Setup, r: Request)
    ensures Replied(setup, [r]) == if HasReply(setup, r) then [r] else []
  {
    assert [r][..0] == [];
  }

  // The reply answers its request, and costs no bytes when none is due.
  lemma ReplyAnswers(setup: Setup, r: Request, k: Sink)
    requires !r.Kill? && k.sent <= |k.put| && Sized(setup, r)
    requires r.Get? ==> |Unsent(k)| >= AnswerSize(setup, r)
    ensures var reply := ReplyTo(setup, r, r.tag, k);
      && (HasReply(setup, r) ==> Answers(setup, r, reply))
      && (!HasReply(setup, r) ==> Wire(reply) == [] && reply.bytes == [])
      && k.sent + |reply.bytes| <= |k.put|
      && k.put[..k.sent] + reply.bytes == k.put[..k.sent + |reply.bytes|]
  {
  }

  lemma DueAppend(log: seq<Reply>, done: nat, flagged: bool, reply: Reply)
    requires done <= |log| && (flagged ==> done < |log|)
    ensures Due(log + [reply], done, flagged) == Due(log, done, flagged) + Wire(reply)
  {
    if flagged {
      WiresAppend(log[done + 1..], reply);
      assert (log + [reply])[done + 1..] == log[done + 1..] + [reply];
    } else {
      WiresAppend(log[done..], reply);
      assert (log + [reply])[done..] == log[done..] + [reply];
    }
  }

  lemma AnswerKeepsFrame(setup: Setup, asked: seq<Request>, log: seq<Reply>, done: nat, flagged: bool,
                         data: seq<byte>, r: Request, rest: seq<Request>, reply: Reply)
    requires AnswersInOrder(setup, asked, log, done, flagged, data, [r] + rest)
    requires HasReply(setup, r) && Answers(setup, r, reply)
    ensures AnswersInOrder(setup, asked, log + [reply], done, flagged, data + Wire(reply), rest)
  {
    var pending := Replied(setup, rest);
    assert asked[|log|..] == [r] + pending by {
      RepliedSplits(setup, [r], rest);
      RepliedOne(setup, r);
    }
    assert asked[|log|] == r && asked[|log| + 1..] == pending;
    DueAppend(log, done, flagged, reply);
  }

  lemma SilenceKeepsFrame(setup: Setup, asked: seq<Request>, log: seq<Reply>, done: nat, flagged: bool,
                          data: seq<byte>, r: Request, rest: seq<Request>)
    requires AnswersInOrder(setup, asked, log, done, flagged, data, [r] + rest) && !HasReply(setup, r)
    ensures AnswersInOrder(setup, asked, log, done, flagged, data, rest)
  {
    RepliedSplits(setup, [r], rest);
    RepliedOne(setup, r);
  }

  lemma SendKeepsFrame(setup: Setup, asked: seq<Request>, log: seq<Reply>, done: nat, flagged: bool,
                       data: seq<byte>, pending: seq<Request>, r: Request)
    requires AnswersInOrder(setup, asked, log, done, flagged, data, pending)
    ensures AnswersInOrder(setup, if HasReply(setup, r) then asked + [r] else asked, log, done, flagged, data,
                           pending + [r])
  {
    RepliedSplits(setup, pending, [r]);
    RepliedOne(setup, r);
    if HasReply(setup, r) {
      RequestWaits(setup, asked, log, done, flagged, data, pending, pending + [r], r);
    }
  }

  lemma RequestWaits(setup: Setup, asked: seq<Request>, log: seq<Reply>, done: nat, flagged: bool,
                     data: seq<byte>, pending: seq<Request>, pending': seq<Request>, r: Request)
    requires AnswersInOrder(setup, asked, log, done, flagged, data, pending)
    requires Replied(setup, pending') == Replied(setup, pending) + [r]
    ensures AnswersInOrder(setup, asked + [r], log, done, flagged, data, pending')
  {
    var asked' := asked + [r];
    assert asked'[|log|..] == asked[|log|..] + [r];
    forall i | 0 <= i < |log| ensures Answers(setup, asked'[i], log[i]) {
      assert asked'[i] == asked[i];
    }
  }

  lemma {:induction false} RepliedHaveReplies(setup: Setup, rs: seq<Request>)
    ensures forall r :: r in Replied(setup, rs) ==> HasReply(setup, r)
  {
    if rs != [] {
      RepliedHaveReplies(setup, rs[..|rs| - 1]);
    }
  }

  // What the consumer is about to read is the front of the oldest unread answer;
  // while that is not on the wire, too few bytes are.
  lemma OldestReply(setup: Setup, asked: seq<Request>, log: seq<Reply>, done: nat, flagged: bool,
                    data: seq<byte>, pending: seq<Request>)
    requires AnswersInOrder(setup, asked, log, done, flagged, data, pending) && done < |asked|
    ensures HasReply(setup, asked[done])
    ensures done == |log| ==> data == [] && !flagged
    ensures done < |log| ==> Answers(setup, asked[done], log[done])
    ensures done < |log| ==>
      data == (if flagged then [] else Flag(log[done].available)[..if asked[done].CondGet? then 4 else 0])
              + (log[done].bytes + Wires(log[done + 1..]))
  {
    if done == |log| {
      RepliedHaveReplies(setup, pending);
      assert asked[done] == asked[|log|..][0];
    } else {
      assert log[done..][1..] == log[done + 1..];
      var f := Flag(log[done].available);
      assert f[..4] == f && f[..0] == [];
    }
  }

  // An answer that has been sent is on the wire in full.
  lemma UnreadOnWire(setup: Setup, asked: seq<Request>, log: seq<Reply>, done: nat, flagged: bool,
                     data: seq<byte>, pending: seq<Request>)
    requires AnswersInOrder(setup, asked, log, done, flagged, data, pending)
    ensures done < |log| && !flagged ==> data != []
    ensures done < |log| ==> !asked[done].Kill?
    ensures done < |log| && asked[done].CondGet? && !flagged ==> |data| >= 4
    ensures done < |log| && (asked[done].CondGet? ==> flagged) ==> |data| >= Size(setup, asked[done])
  {
    if done < |log| {
      OldestReply(setup, asked, log, done, flagged, data, pending);
    }
  }

  lemma NothingForgotten(setup: Setup, asked: seq<Request>, log: seq<Reply>, done: nat, flagged: bool,
                         data: seq<byte>, pending: seq<Request>)
    requires AnswersInOrder(setup, asked, log, done, flagged, data, pending)
    ensures |asked| > |log| ==> pending != []
  {
  }

  lemma FlagRead(setup: Setup, asked: seq<Request>, log: seq<Reply>, done: nat, data: seq<byte>, pending: seq<Request>)
    requires AnswersInOrder(setup, asked, log, done, false, data, pending)
    requires done < |asked| && asked[done].CondGet? && |data| >= 4
    ensures done < |log| && FlagSet(data[..4]) == log[done].available
    ensures data == Flag(log[done].available) + data[4..]
    ensures data[4..] == log[done].bytes + Wires(log[done + 1..])
  {
    OldestReply(setup, asked, log, done, false, data, pending);
    FlagFirst(log[done].available, log[done].bytes + Wires(log[done + 1..]), data);
  }

  lemma FlagFirst(available: bool, rest: seq<byte>, data: seq<byte>)
    requires data == Flag(available)[..4] + rest
    ensures |data| >= 4 && FlagSet(data[..4]) == available && data[4..] == rest && data == Flag(available) + data[4..]
  {
    var f := Flag(available);
    assert f[..4] == f && data[..4] == f;
    assert f[0] == (if available then 1 else 0) && f[1] == 0 && f[2] == 0 && f[3] == 0;
  }

  lemma DataRead(setup: Setup, asked: seq<Request>, log: seq<Reply>, done: nat, flagged: bool, data: seq<byte>,
                 pending: seq<Request>)
    requires AnswersInOrder(setup, asked, log, done, flagged, data, pending)
    requires done < |asked| && !asked[done].Kill? && (asked[done].CondGet? ==> flagged)
    requires |data| >= Size(setup, asked[done])
    ensures done < |log| && log[done].tag == asked[done].tag
    ensures data[..Size(setup, asked[done])] == log[done].bytes
    ensures data[Size(setup, asked[done])..] == Wires(log[done + 1..])
  {
    OldestReply(setup, asked, log, done, flagged, data, pending);
    var reply := log[done];
    assert data == reply.bytes + Wires(log[done + 1..]);
  }

  ghost predicate SameFrame(s: State, s': State) {
    s'.asked == s.asked && s'.log == s.log && s'.done == s.done && s'.flagged == s.flagged && s'.data == s.data
  }

  // Requests join the pending ones at the back and leave them at the front.
  lemma TakenPending(s: State, s': State, setup: Setup)
    requires Moves(s, s', setup, Take)
    ensures Pending(s) == [s.reqs[0]] + s.reqs[1..]
    ensures Pending(s') == (if s.reqs[0].Kill? then s.reqs[1..] else Pending(s)) && SameFrame(s, s')
  {
    assert InService(s) == [];
  }

  lemma AnsweredPending(s: State, s': State, setup: Setup)
    requires Moves(s, s', setup, Answer)
    ensures Pending(s) == [s.service.r] + s.reqs && Pending(s') == s.reqs
  {
    assert InService(s') == [];
  }

  lemma SentPending(s: State, s': State, setup: Setup, e: Event)
    requires Moves(s, s', setup, e) && !e.Take? && !e.Answer?
    ensures match e
      case Ask(r) => Pending(s') == Pending(s) + [r]
      case Destroy(t) => Pending(s') == Pending(s) + [Kill(t)]
      case _ => Pending(s') == Pending(s)
  {
    assert InService(s') == InService(s);
  }

  lemma AllowedKept(s: State, s': State, setup: Setup, e: Event)
    requires AllAllowed(setup, Pending(s)) && Moves(s, s', setup, e)
    ensures AllAllowed(setup, Pending(s'))
  {
    if e.Take? {
      TakenPending(s, s', setup);
      AllowedTail(setup, Pending(s));
    } else if e.Answer? {
      AnsweredPending(s, s', setup);
      AllowedTail(setup, Pending(s));
    } else {
      SentPending(s, s', setup, e);
    }
  }

  lemma AllowedTail(setup: Setup, pending: seq<Request>)
    requires AllAllowed(setup, pending) && pending != []
    ensures AllAllowed(setup, pending[1..])
  {
  }

  lemma ServedSized(s: State, setup: Setup)
    requires AsksOneSlot(setup) && AllAllowed(setup, Pending(s)) && !s.service.Idle?
    ensures Sized(setup, s.service.r)
  {
    assert Pending(s)[0] == s.service.r;
    if !s.service.r.Kill? {
      AllowedSized(setup, s.service.r);
    }
  }

  lemma ReadFlagKeepsFrame(s: State, s': State, setup: Setup)
    requires Framed(s, setup) && Moves(s, s', setup, ReadFlag)
    ensures Framed(s', setup)
  {
    FlagRead(setup, s.asked, s.log, s.done, s.data, Pending(s));
    SentPending(s, s', setup, ReadFlag);
    if !s.log[s.done].available {
      assert s'.data == Wires(s.log[s.done + 1..]);
    }
  }

  lemma ReadDataKeepsFrame(s: State, s': State, setup: Setup)
    requires Framed(s, setup) && Moves(s, s', setup, ReadData)
    ensures Framed(s', setup)
  {
    DataRead(setup, s.asked, s.log, s.done, s.flagged, s.data, Pending(s));
    SentPending(s, s', setup, ReadData);
  }

  lemma TakeKeepsFrame(s: State, s': State, setup: Setup)
    requires Framed(s, setup) && SameFrame(s, s') && s.reqs != [] && Pending(s) == [s.reqs[0]] + s.reqs[1..]
    requires Pending(s') == if s.reqs[0].Kill? then s.reqs[1..] else Pending(s)
    ensures Framed(s', setup)
  {
    if s.reqs[0].Kill? {
      SilenceKeepsFrame(setup, s.asked, s.log, s.done, s.flagged, s.data, s.reqs[0], s.reqs[1..]);
    }
  }

  // What an answer changes, apart from the requests under way.
  ghost predicate AnswerChanges(s: State, s': State, setup: Setup, r: Request, reply: Reply)
    requires r.tag < |s.sinks|
  {
    var k := s.sinks[r.tag];
    && s'.data == s.data + Wire(reply) && s'.sinks == s.sinks[r.tag := k.(sent := k.sent + |reply.bytes|)]
    && s'.log == (if HasReply(setup, r) then s.log + [reply] else s.log)
    && s'.asked == s.asked && s'.done == s.done && s'.flagged == s.flagged && s'.got == s.got
  }

  lemma AnswerFields(s: State, s': State, setup: Setup)
    requires SearchInv(s) && Moves(s, s', setup, Answer)
    ensures !s.service.r.Kill? && s.service.r.tag < |s.sinks|
    ensures var r := s.service.r;
      AnswerChanges(s, s', setup, r, ReplyTo(setup, r, r.tag, s.sinks[r.tag]))
    ensures var r := s.service.r;
      r.Get? ==> |Unsent(s.sinks[r.tag])| >= AnswerSize(setup, r)
  {
  }

  lemma AnswerStepKeepsFrame(s: State, s': State, setup: Setup, r: Request, reply: Reply)
    requires Framed(s, setup) && Pending(s) == [r] + s.reqs && Pending(s') == s.reqs && r.tag < |s.sinks|
    requires AnswerChanges(s, s', setup, r, reply)
    requires if HasReply(setup, r) then Answers(setup, r, reply) else Wire(reply) == []
    ensures Framed(s', setup)
  {
    if HasReply(setup, r) {
      AnswerKeepsFrame(setup, s.asked, s.log, s.done, s.flagged, s.data, r, s.reqs, reply);
    } else {
      SilenceKeepsFrame(setup, s.asked, s.log, s.done, s.flagged, s.data, r, s.reqs);
      assert s.data + Wire(reply) == s.data;
    }
  }

  lemma AnswerIsFramed(s: State, s': State, setup: Setup)
    requires Framed(s, setup) && SearchInv(s) && StreamInv(s) && Moves(s, s', setup, Answer)
    requires Sized(setup, s.service.r)
    ensures Framed(s', setup)
  {
    var r := s.service.r;
    AnsweredPending(s, s', setup);
    AnswerFields(s, s', setup);
    ReplyAnswers(setup, r, s.sinks[r.tag]);
    AnswerStepKeepsFrame(s, s', setup, r, ReplyTo(setup, r, r.tag, s.sinks[r.tag]));
  }

  lemma FrameKept(s: State, s': State, setup: Setup, e: Event)
    requires AsksOneSlot(setup) && FrameInv(s, setup) && SearchInv(s) && StreamInv(s) && Moves(s, s', setup, e)
    ensures FrameInv(s', setup)
  {
    AllowedKept(s, s', setup, e);
    match e
    case Answer =>
      ServedSized(s, setup);
      AnswerIsFramed(s, s', setup);
    case Take =>
      TakenPending(s, s', setup);
      TakeKeepsFrame(s, s', setup);
    case ReadFlag => ReadFlagKeepsFrame(s, s', setup);
    case ReadData => ReadDataKeepsFrame(s, s', setup);
    case _ => SendsKeepFrame(s, s', setup, e);
  }

  lemma SendsKeepFrame(s: State, s': State, setup: Setup, e: Event)
    requires Framed(s, setup) && Moves(s, s', setup, e)
    requires !(e.Take? || e.Answer? || e.ReadFlag? || e.ReadData?)
    ensures Framed(s', setup)
  {
    SentPending(s, s', setup, e);
    match e
    case Ask(r) => SendKeepsFrame(setup, s.asked, s.log, s.done, s.flagged, s.data, Pending(s), r);
    case Destroy(t) => SendKeepsFrame(setup, s.asked, s.log, s.done, s.flagged, s.data, Pending(s), Kill(t));
    case _ =>
  }

  // --- Streams ---

  lemma StreamAppend(log: seq<Reply>, reply: Reply, t: nat)
    ensures Stream(log + [reply], t) == Stream(log, t) + if reply.tag == t then reply.bytes else []
  {
    assert (log + [reply])[..|log + [reply]| - 1] == log;
  }

  lemma {:induction false} StreamPrefix(log: seq<Reply>, n: nat, t: nat)
    requires n <= |log|
    ensures Stream(log[..n], t) <= Stream(log, t)
    decreases |log|
  {
    if n < |log| {
      var front := log[..|log| - 1];
      StreamPrefix(front, n, t);
      assert front[..n] == log[..n];
    } else {
      assert log[..n] == log;
    }
  }

  lemma {:induction false} NoStream(log: seq<Reply>, t: nat)
    requires forall i :: 0 <= i < |log| ==> log[i].tag != t
    ensures Stream(log, t) == []
  {
    if log != [] {
      NoStream(log[..|log| - 1], t);
    }
  }

  lemma AnswerKeepsStreams(sinks: seq<Sink>, log: seq<Reply>, done: nat, got: seq<seq<byte>>, reply: Reply)
    requires StreamOk(sinks, log, done, got) && reply.tag < |sinks|
    requires var k := sinks[reply.tag];
      && k.sent + |reply.bytes| <= |k.put|
      && k.put[..k.sent] + reply.bytes == k.put[..k.sent + |reply.bytes|]
    ensures var k := sinks[reply.tag];
      StreamOk(sinks[reply.tag := k.(sent := k.sent + |reply.bytes|)], log + [reply], done, got)
  {
    forall t | 0 <= t < |sinks| ensures
      Stream(log + [reply], t) == Stream(log, t) + if reply.tag == t then reply.bytes else []
    {
      StreamAppend(log, reply, t);
    }
    assert (log + [reply])[..done] == log[..done];
  }

  lemma AnswerStepKeepsStreams(s: State, s': State, setup: Setup, r: Request, reply: Reply)
    requires StreamInv(s) && r.tag < |s.sinks| && AnswerChanges(s, s', setup, r, reply) && reply.tag == r.tag
    requires var k := s.sinks[r.tag];
      && k.sent + |reply.bytes| <= |k.put|
      && k.put[..k.sent] + reply.bytes == k.put[..k.sent + |reply.bytes|]
    requires !HasReply(setup, r) ==> reply.bytes == []
    ensures StreamInv(s')
  {
    if HasReply(setup, r) {
      AnswerKeepsStreams(s.sinks, s.log, s.done, s.got, reply);
    } else {
      assert s.sinks[r.tag := s.sinks[r.tag]] == s.sinks;
    }
  }

  lemma AnswerIsStreamed(s: State, s': State, setup: Setup)
    requires SearchInv(s) && StreamInv(s) && Moves(s, s', setup, Answer) && Sized(setup, s.service.r)
    ensures StreamInv(s')
  {
    var r := s.service.r;
    AnswerFields(s, s', setup);
    ReplyAnswers(setup, r, s.sinks[r.tag]);
    AnswerStepKeepsStreams(s, s', setup, r, ReplyTo(setup, r, r.tag, s.sinks[r.tag]));
  }

  lemma ReadKeepsStreams(sinks: seq<Sink>, log: seq<Reply>, done: nat, got: seq<seq<byte>>, got': seq<seq<byte>>)
    requires StreamOk(sinks, log, done, got) && done < |log| && |got'| == |got|
    requires forall t :: 0 <= t < |got| ==>
      got'[t] == got[t] + if log[done].tag == t then log[done].bytes else []
    ensures StreamOk(sinks, log, done + 1, got')
  {
    assert log[..done + 1] == log[..done] + [log[done]];
    forall t | 0 <= t < |got| ensures got'[t] == Stream(log[..done + 1], t) {
      StreamAppend(log[..done], log[done], t);
    }
  }

  lemma CreateKeepsStreams(sinks: seq<Sink>, log: seq<Reply>, done: nat, got: seq<seq<byte>>, cap: nat)
    requires StreamOk(sinks, log, done, got)
    ensures StreamOk(sinks + [Sink([], 0, cap)], log, done, got)
  {
    NoStream(log, |sinks|);
  }

  lemma SourceKeepsStreams(setup: Setup, sinks: seq<Sink>, asked: seq<Request>, log: seq<Reply>, done: nat,
                           got: seq<seq<byte>>)
    requires StreamOk(sinks, log, done, got) && |log| <= |asked|
    requires forall i :: 0 <= i < |log| ==> Answers(setup, asked[i], log[i])
    requires forall i :: 0 <= i < |asked| ==> asked[i].tag < |got|
    ensures StreamOk(sinks, log, done, got + [[]])
  {
    forall i | 0 <= i < done ensures log[..done][i].tag != |got| {
      assert Answers(setup, asked[i], log[i]);
    }
    NoStream(log[..done], |got|);
  }

  lemma ReadFlagKeepsStreams(s: State, s': State, setup: Setup)
    requires FrameInv(s, setup) && StreamInv(s) && Moves(s, s', setup, ReadFlag)
    ensures StreamInv(s')
  {
    FlagRead(setup, s.asked, s.log, s.done, s.data, Pending(s));
    assert Answers(setup, s.asked[s.done], s.log[s.done]);
    if !s.log[s.done].available {
      ReadKeepsStreams(s.sinks, s.log, s.done, s.got, s.got);
    }
  }

  lemma ReadDataKeepsStreams(s: State, s': State, setup: Setup)
    requires FrameInv(s, setup) && StreamInv(s) && Moves(s, s', setup, ReadData)
    ensures StreamInv(s')
  {
    DataRead(setup, s.asked, s.log, s.done, s.flagged, s.data, Pending(s));
    ReadKeepsStreams(s.sinks, s.log, s.done, s.got, s'.got);
  }

  lemma PutKeepsStreams(sinks: seq<Sink>, log: seq<Reply>, done: nat, got: seq<seq<byte>>, t: nat, x: seq<byte>)
    requires StreamOk(sinks, log, done, got) && t < |sinks|
    ensures StreamOk(sinks[t := sinks[t].(put := sinks[t].put + x)], log, done, got)
  {
    var k := sinks[t];
    assert (k.put + x)[..k.sent] == k.put[..k.sent];
  }

  lemma StreamKept(s: State, s': State, setup: Setup, e: Event)
    requires Inv(s, setup) && Moves(s, s', setup, e)
    ensures StreamInv(s')
  {
    match e
    case Answer =>
      ServedSized(s, setup);
      AnswerIsStreamed(s, s', setup);
    case CreateSink(cap) => CreateKeepsStreams(s.sinks, s.log, s.done, s.got, cap);
    case Put(t, x) => PutKeepsStreams(s.sinks, s.log, s.done, s.got, t, x);
    case CreateSource => SourceKeepsStreams(setup, s.sinks, s.asked, s.log, s.done, s.got);
    case ReadFlag => ReadFlagKeepsStreams(s, s', setup);
    case ReadData => ReadDataKeepsStreams(s, s', setup);
    case _ =>
  }

  lemma StepKeeps(s: State, s': State, setup: Setup, e: Event)
    requires Inv(s, setup) && Moves(s, s', setup, e)
    ensures Inv(s', setup)
  {
    LinkKept(s, s', setup, e);
    SearchKept(s, s', setup, e);
    RequestKept(s, s', setup, e);
    FrameKept(s, s', setup, e);
    StreamKept(s, s', setup, e);
  }

  // --- Every run ---

  ghost predicate IsProtocolRun(setup: Setup, run: seq<State>) {
    IsRun(s => Start(s), (s, s') => Step(s, s', setup), run)
  }

  lemma AnyStepKeeps(s: State, s': State, setup: Setup)
    requires Inv(s, setup) && Step(s, s', setup)
    ensures Inv(s', setup)
  {
    var e :| Enabled(s, setup, e) && s' == Next(s, setup, e);
    StepKeeps(s, s', setup, e);
  }

  lemma RunKeepsInv(setup: Setup, run: seq<State>, i: nat)
    requires AsksOneSlot(setup) && IsProtocolRun(setup, run) && i < |run|
    ensures Inv(run[i], setup)
  {
    var init, next := (s: State) => Start(s), (s: State, s': State) => Step(s, s', setup);
    var inv := (s: State) => Inv(s, setup);
    forall s, s' | inv(s) && next(s, s') ensures inv(s') {
      AnyStepKeeps(s, s', setup);
    }
    InvariantHolds(init, next, inv, run, i);
  }

  // What the consumer has got from the source of a tag is a prefix of what the
  // producer has sent of the sink of that tag, which is a prefix of what it put.
  lemma EveryRunDelivers(setup: Setup, run: seq<State>, i: nat, t: nat)
    requires AsksOneSlot(setup) && IsProtocolRun(setup, run) && i < |run| && t < |run[i].got|
    ensures var s := run[i];
      if t < |s.sinks| then
        s.sinks[t].sent <= |s.sinks[t].put| && s.got[t] <= s.sinks[t].put[..s.sinks[t].sent]
      else s.got[t] == []
  {
    RunKeepsInv(setup, run, i);
    var s := run[i];
    if t < |s.sinks| {
      StreamPrefix(s.log, s.done, t);
    } else {
      NoStream(s.log[..s.done], t);
    }
  }

  // When the consumer has read every answer, it has got all that was sent.
  lemma NothingLost(setup: Setup, run: seq<State>, i: nat, t: nat)
    requires AsksOneSlot(setup) && IsProtocolRun(setup, run) && i < |run|
    requires t < |run[i].got| && t < |run[i].sinks| && run[i].data == [] && !run[i].flagged
    ensures var s := run[i];
      s.sinks[t].sent <= |s.sinks[t].put| && s.got[t] == s.sinks[t].put[..s.sinks[t].sent]
  {
    RunKeepsInv(setup, run, i);
    var s := run[i];
    UnreadOnWire(setup, s.asked, s.log, s.done, s.flagged, s.data, Pending(s));
    assert s.log[..s.done] == s.log;
  }

  // The answers so far are to the first requests that have answers, in order;
  // each has exactly the bytes the consumer will read for it, and the data FIFO
  // holds exactly those the consumer has not read.
  lemma EveryRunFramed(setup: Setup, run: seq<State>, i: nat)
    requires AsksOneSlot(setup) && IsProtocolRun(setup, run) && i < |run|
    ensures Framed(run[i], setup)
  {
    RunKeepsInv(setup, run, i);
  }

  // Each answer with data has exactly unit * du bytes for the request it answers,
  // however many units that asks for; one without is the flag alone.
  lemma AnswersCarry(setup: Setup, run: seq<State>, i: nat, k: nat)
    requires AsksOneSlot(setup) && IsProtocolRun(setup, run) && i < |run| && k < |run[i].log|
    ensures |run[i].log| <= |run[i].asked| && !run[i].asked[k].Kill?
    ensures var (r, reply) := (run[i].asked[k], run[i].log[k]);
      && reply.tag == r.tag && reply.conditional == r.CondGet? && (r.Get? ==> reply.available)
      && |reply.bytes| == if reply.available then setup.unit(r.tag) * r.du else 0
  {
    RunKeepsInv(setup, run, i);
    assert Answers(setup, run[i].asked[k], run[i].log[k]);
  }

  // A get of du units waits for unit * du buffered bytes, and then takes exactly the
  // next unit * du bytes of its channel; a conditional one does not wait.
  lemma AnswerTakes(s: State, setup: Setup)
    requires Inv(s, setup) && s.service.Serving?
    ensures !s.service.r.Kill? && s.service.r.tag < |s.sinks|
    ensures WaitsFor(s, setup, s.service.r, setup.unit(s.service.r.tag) * s.service.r.du)
  {
    ServedSized(s, setup);
    Takes(s, setup, s.service.r);
  }

  ghost predicate WaitsFor(s: State, setup: Setup, r: Request, n: nat)
    requires r.tag < |s.sinks|
  {
    var k := s.sinks[r.tag];
    && k.sent <= |k.put|
    && (Enabled(s, setup, Answer) <==> r.CondGet? || k.sent + n <= |k.put|)
    && (Enabled(s, setup, Answer) && k.sent + n <= |k.put| ==>
          && Next(s, setup, Answer).sinks == s.sinks[r.tag := k.(sent := k.sent + n)]
          && Next(s, setup, Answer).data
             == s.data + ((if r.CondGet? then Flag(true) else []) + k.put[k.sent..k.sent + n]))
  }

  lemma Takes(s: State, setup: Setup, r: Request)
    requires s.service.Serving? && r == s.service.r && !r.Kill? && Sized(setup, r)
    requires s.service.at < |s.links| && s.links[s.service.at] == r.tag < |s.sinks|
    requires s.sinks[r.tag].sent <= |s.sinks[r.tag].put|
    ensures WaitsFor(s, setup, r, setup.unit(r.tag) * r.du)
  {
    AnswerBytes(setup, r, s.sinks[r.tag]);
  }

  lemma AnswerBytes(setup: Setup, r: Request, k: Sink)
    requires !r.Kill? && Sized(setup, r) && k.sent <= |k.put|
    ensures var n := setup.unit(r.tag) * r.du;
      && AnswerSize(setup, r) == n && |Unsent(k)| == |k.put| - k.sent
      && (k.sent + n <= |k.put| ==>
            Wire(ReplyTo(setup, r, r.tag, k)) == (if r.CondGet? then Flag(true) else []) + k.put[k.sent..k.sent + n] &&
            |ReplyTo(setup, r, r.tag, k).bytes| == n)
  {
    var n := Size(setup, r);
    if k.sent + n <= |k.put| {
      assert k.put[k.sent..][..n] == k.put[k.sent..k.sent + n];
    }
  }

  // A get that returns has got exactly unit * du bytes, those first on the wire.
  lemma ReadExtends(s: State, s': State, setup: Setup)
    requires Inv(s, setup) && Moves(s, s', setup, ReadData)
    ensures var r := s.asked[s.done];
      var n := setup.unit(r.tag) * r.du;
      && r.tag < |s.got| && n <= |s.data| && s.data == s.data[..n] + s'.data
      && s'.got == s.got[r.tag := s.got[r.tag] + s.data[..n]]
  {
  }

  // --- What the programs call for ---

  // A put of any length is possible exactly while there is room for it, and is added
  // to the stream; a ring of slots takes one unit.
  lemma PutAdds(s: State, setup: Setup, t: nat, x: seq<byte>)
    requires Inv(s, setup) && t in s.links
    ensures t < |s.sinks| && s.sinks[t].sent <= |s.sinks[t].put|
    ensures var k := s.sinks[t];
      Enabled(s, setup, Put(t, x)) <==>
        |k.put| - k.sent + |x| <= k.cap && (setup.slot(t) ==> |x| == setup.unit(t))
    ensures Enabled(s, setup, Put(t, x)) ==>
      Next(s, setup, Put(t, x)) == s.(sinks := s.sinks[t := s.sinks[t].(put := s.sinks[t].put + x)])
  {
  }

  // A get of a tag that a source has and that is not destroyed goes behind the requests
  // already sent, and so does a destruction.
  lemma RequestsQueue(s: State, setup: Setup, r: Request)
    requires r.tag < s.sources && r.tag !in s.killed
    ensures !r.Kill? && setup.allowed(r) ==> Enabled(s, setup, Ask(r)) && Next(s, setup, Ask(r)).reqs == s.reqs + [r]
    ensures Enabled(s, setup, Destroy(r.tag)) && Next(s, setup, Destroy(r.tag)).reqs == s.reqs + [Kill(r.tag)]
  {
  }

  // A request for the cached tag is served from the cached link at once, any other
  // starts a search at the head of the list; a search that finds its tag caches it.
  lemma CacheServes(s: State, setup: Setup)
    ensures s.service.Idle? && s.reqs != [] && !s.reqs[0].Kill? ==>
      && Enabled(s, setup, Take)
      && Next(s, setup, Take).service ==
         if s.clink >= 0 && s.reqs[0].tag == s.ctag then Serving(s.reqs[0], s.clink)
         else Scan(s.reqs[0], |s.links| - 1, |s.links| - 1)
    ensures s.service.Scan? && 0 <= s.service.pos < |s.links| && s.links[s.service.pos] == s.service.r.tag ==>
      && Enabled(s, setup, Look)
      && Next(s, setup, Look)
         == s.(service := Serving(s.service.r, s.service.pos), clink := s.service.pos, ctag := s.service.r.tag)
  {
  }

  // A sleeping search can wake for nothing, and then starts again.
  lemma WakesForNothing(s: State, setup: Setup)
    requires s.service.Asleep?
    ensures Enabled(s, setup, SpuriousWake) && Next(s, setup, SpuriousWake) == s.(service := Woken(s.service.r))
  {
  }

  // What has been put into the sink of a tag, the requests that have answers, and the
  // tags destroyed, by the events so far.
  function PutBytes(events: seq<Event>, t: nat): seq<byte> {
    if events == [] then []
    else
      var e := events[|events| - 1];
      PutBytes(events[..|events| - 1], t) + if e.Put? && e.tag == t then e.x else []
  }

  function Requested(setup: Setup, events: seq<Event>): seq<Request> {
    if events == [] then []
    else
      var e := events[|events| - 1];
      Requested(setup, events[..|events| - 1]) +
      if e.Ask? && (e.r.CondGet? || (e.r.Get? && setup.unit(e.r.tag) * e.r.du > 0)) then [e.r] else []
  }

  function Destroyed(events: seq<Event>): set<nat> {
    set e | e in events && e.Destroy? :: e.tag
  }

  ghost predicate IsProtocolTrace(setup: Setup, run: seq<State>, events: seq<Event>) {
    IsTrace(s => Start(s), (s, e, s') => Moves(s, s', setup, e), run, events)
  }

  ghost predicate PutsKept(s: State, events: seq<Event>) {
    forall t: nat :: PutBytes(events, t) == if t < |s.sinks| then s.sinks[t].put else []
  }

  ghost predicate KillsKept(s: State, events: seq<Event>) {
    s.killed == Destroyed(events) && forall t :: t in s.killed ==> t in s.removed || Kill(t) in s.reqs
  }

  ghost predicate CallsKept(s: State, setup: Setup, events: seq<Event>) {
    Inv(s, setup) && PutsKept(s, events) && s.asked == Requested(setup, events) && KillsKept(s, events)
  }

  lemma PutAt(s: State, s': State, setup: Setup, e: Event, t: nat)
    requires Moves(s, s', setup, e)
    ensures (if t < |s'.sinks| then s'.sinks[t].put else []) ==
      (if t < |s.sinks| then s.sinks[t].put else []) + if e.Put? && e.tag == t then e.x else []
  {
    if e.Put? && e.tag == t {
      assert s'.sinks[t].put == s.sinks[t].put + e.x;
    } else if t < |s.sinks| {
      assert s'.sinks[t].put == s.sinks[t].put;
    }
  }

  lemma StepKeepsPuts(s: State, s': State, setup: Setup, events: seq<Event>, e: Event)
    requires PutsKept(s, events) && Moves(s, s', setup, e)
    ensures PutsKept(s', events + [e])
  {
    assert (events + [e])[..|events + [e]| - 1] == events;
    forall t: nat ensures PutBytes(events + [e], t) == if t < |s'.sinks| then s'.sinks[t].put else [] {
      assert PutBytes(events, t) == if t < |s.sinks| then s.sinks[t].put else [];
      PutAt(s, s', setup, e, t);
    }
  }

  lemma RequestedGrows(setup: Setup, events: seq<Event>, e: Event)
    ensures Requested(setup, events + [e]) == Requested(setup, events) +
      if e.Ask? && (e.r.CondGet? || (e.r.Get? && setup.unit(e.r.tag) * e.r.du > 0)) then [e.r] else []
  {
    assert (events + [e])[..|events + [e]| - 1] == events;
  }

  lemma AskedGrows(s: State, s': State, setup: Setup, e: Event)
    requires Moves(s, s', setup, e)
    ensures s'.asked == s.asked + if e.Ask? && HasReply(setup, e.r) then [e.r] else []
  {
    if e.Ask? {
      assert s.asked + [] == s.asked;
    } else {
      assert s'.asked == s.asked;
    }
  }

  lemma StepKeepsAsked(s: State, s': State, setup: Setup, events: seq<Event>, e: Event)
    requires s.asked == Requested(setup, events) && Moves(s, s', setup, e)
    ensures s'.asked == Requested(setup, events + [e])
  {
    RequestedGrows(setup, events, e);
    AskedGrows(s, s', setup, e);
  }

  lemma StepKeepsKills(s: State, s': State, setup: Setup, events: seq<Event>, e: Event)
    requires KillsKept(s, events) && Moves(s, s', setup, e)
    ensures KillsKept(s', events + [e])
  {
    assert Destroyed(events + [e]) == Destroyed(events) + if e.Destroy? then {e.tag} else {};
    forall t | t in s'.killed ensures t in s'.removed || Kill(t) in s'.reqs {
      if e.Take? {
        assert s.reqs == [s.reqs[0]] + s.reqs[1..];
      }
    }
  }

  lemma StepKeepsCalls(s: State, s': State, setup: Setup, events: seq<Event>, e: Event)
    requires CallsKept(s, setup, events) && Moves(s, s', setup, e)
    ensures CallsKept(s', setup, events + [e])
  {
    StepKeeps(s, s', setup, e);
    StepKeepsPuts(s, s', setup, events, e);
    StepKeepsAsked(s, s', setup, events, e);
    StepKeepsKills(s, s', setup, events, e);
  }

  lemma StartInv(s: State, setup: Setup)
    requires AsksOneSlot(setup) && Start(s)
    ensures Inv(s, setup)
  {
  }

  lemma StartCalls(s: State, setup: Setup)
    requires AsksOneSlot(setup) && Start(s)
    ensures CallsKept(s, setup, [])
  {
    StartInv(s, setup);
  }

  lemma TraceKeeps(setup: Setup, run: seq<State>, events: seq<Event>, i: nat)
    requires AsksOneSlot(setup) && IsProtocolTrace(setup, run, events) && i < |run|
    ensures IsProtocolRun(setup, run) && CallsKept(run[i], setup, events[..i])
  {
    var init, does := (s: State) => Start(s), (s: State, e: Event, s': State) => Moves(s, s', setup, e);
    var inv := (s: State, es: seq<Event>) => CallsKept(s, setup, es);
    forall s | init(s) ensures inv(s, []) {
      StartCalls(s, setup);
    }
    forall s, es, e, s' | inv(s, es) && does(s, e, s') ensures inv(s', es + [e]) {
      StepKeepsCalls(s, s', setup, es, e);
    }
    TraceHolds(init, does, inv, run, events, i);
    TraceIsRun(init, does, (s: State, s': State) => Step(s, s', setup), run, events);
  }

  // In every run what the consumer has got of a tag is a prefix of the data of the put
  // calls on it, of any lengths, and with an empty wire all that has been sent of it;
  // the k-th answer is to the k-th request made that has one.
  lemma EveryTraceDelivers(setup: Setup, run: seq<State>, events: seq<Event>, i: nat, t: nat)
    requires AsksOneSlot(setup) && IsProtocolTrace(setup, run, events) && i < |run| && t < |run[i].got|
    ensures IsProtocolRun(setup, run) && run[i].got[t] <= PutBytes(events[..i], t)
    ensures run[i].asked == Requested(setup, events[..i])
  {
    TraceKeeps(setup, run, events, i);
    EveryRunDelivers(setup, run, i, t);
    assert PutsKept(run[i], events[..i]);
  }

  // A destroyed tag is out of the list once the service thread has taken the request
  // for it; every other created tag stays.
  lemma EveryDestroyTakesEffect(setup: Setup, run: seq<State>, events: seq<Event>, i: nat, t: nat)
    requires AsksOneSlot(setup) && IsProtocolTrace(setup, run, events) && i < |run|
    ensures t in Destroyed(events[..i]) && Kill(t) !in run[i].reqs ==> t !in run[i].links
    ensures t < |run[i].sinks| && t !in Destroyed(events[..i]) ==> t in run[i].links
  {
    TraceKeeps(setup, run, events, i);
  }

  // The cached link is the one and only link of the cached tag; a link found has
  // the requested tag; and the service thread sleeps only while the requested
  // sink has not been created, so an insertion cannot be missed.
  lemma EverySearchIsRight(setup: Setup, run: seq<State>, i: nat)
    requires AsksOneSlot(setup) && IsProtocolRun(setup, run) && i < |run|
    ensures var s := run[i];
      && (s.clink >= 0 ==> s.clink < |s.links| && forall k :: 0 <= k < |s.links| ==>
            (s.links[k] == s.ctag <==> k == s.clink))
      && (s.service.Serving? ==> s.service.at < |s.links| && s.links[s.service.at] == s.service.r.tag)
      && (s.service.Asleep? ==> |s.sinks| <= s.service.r.tag < s.sources)
  {
    RunKeepsInv(setup, run, i);
  }

  // The links a search still has to look at, more if it has to start again.
  function SearchRank(s: State): int {
    match s.service
    case Scan(_, root, pos) => pos + 2 + if root != |s.links| - 1 then |s.links| + 1 else 0
    case Woken(_) => |s.links| + 2
    case _ => 0
  }

  // Unless a sink is created meanwhile or the thread is woken for nothing, a search
  // ends.
  lemma SearchFalls(s: State, s': State, setup: Setup, e: Event)
    requires Inv(s, setup) && (e.Look? || e.Rescan?) && Moves(s, s', setup, e)
    ensures 0 <= SearchRank(s') < SearchRank(s)
  {
  }

  // A conditional get is answered with the next bytes of its channel exactly when
  // enough of them are buffered, and never waits.
  lemma ConditionalAnswer(s: State, setup: Setup)
    requires Inv(s, setup) && s.service.Serving? && s.service.r.CondGet?
    ensures s.service.r.tag < |s.sinks| && Enabled(s, setup, Answer)
    ensures ConditionallySent(s, Next(s, setup, Answer), s.service.r.tag, Size(setup, s.service.r))
  {
    ServedSized(s, setup);
    AnswersConditionally(s, setup, s.service.r);
  }

  ghost predicate ConditionallySent(s: State, s': State, t: nat, n: nat)
    requires t < |s.sinks|
  {
    var k := s.sinks[t];
    if k.sent + n <= |k.put| then
      s'.data == s.data + (Flag(true) + k.put[k.sent..k.sent + n]) && s'.sinks == s.sinks[t := k.(sent := k.sent + n)]
    else s'.data == s.data + Flag(false) && s'.sinks == s.sinks
  }

  lemma AnswersConditionally(s: State, setup: Setup, r: Request)
    requires s.service.Serving? && s.service.r == r && r.CondGet? && Sized(setup, r)
    requires s.service.at < |s.links| && s.links[s.service.at] == r.tag < |s.sinks|
    requires s.sinks[r.tag].sent <= |s.sinks[r.tag].put|
    ensures Enabled(s, setup, Answer) && ConditionallySent(s, Next(s, setup, Answer), r.tag, Size(setup, r))
  {
    ConditionalReply(setup, r, s.sinks[r.tag]);
    assert s.sinks[r.tag := s.sinks[r.tag]] == s.sinks;
  }

  lemma ConditionalReply(setup: Setup, r: Request, k: Sink)
    requires r.CondGet? && Sized(setup, r) && k.sent <= |k.put|
    ensures var (n, reply) := (Size(setup, r), ReplyTo(setup, r, r.tag, k));
      if k.sent + n <= |k.put| then
        Wire(reply) == Flag(true) + k.put[k.sent..k.sent + n] && |reply.bytes| == n
      else Wire(reply) == Flag(false) && k.(sent := k.sent + |reply.bytes|) == k
  {
    var n := Size(setup, r);
    if k.sent + n <= |k.put| {
      assert k.put[k.sent..][..n] == k.put[k.sent..k.sent + n];
    } else {
      assert Flag(false) + [] == Flag(false);
    }
  }

  // A consumer that waits for an answer can read it, or the service thread can
  // move, or the sink it needs has not been created, or too little has been put.
  lemma WaitingExplained(s: State, setup: Setup)
    requires Inv(s, setup) && s.done < |s.asked|
    ensures
      || Enabled(s, setup, ReadFlag) || Enabled(s, setup, ReadData)
      || Enabled(s, setup, Take) || Enabled(s, setup, Look) || Enabled(s, setup, Rescan) || Enabled(s, setup, Answer)
      || (s.service.Asleep? && s.service.r.tag >= |s.sinks|)
      || (s.service.Serving? && s.service.r.Get? && s.service.r.tag < |s.sinks| &&
          |Unsent(s.sinks[s.service.r.tag])| < Size(setup, s.service.r))
      || (s.service.Idle? && s.reqs != [] && s.reqs[0].Kill? && s.reqs[0].tag >= |s.sinks|)
  {
    if s.done < |s.log| {
      UnreadOnWire(setup, s.asked, s.log, s.done, s.flagged, s.data, Pending(s));
      assert Answers(setup, s.asked[s.done], s.log[s.done]);
    } else if s.service.Idle? {
      NothingForgotten(setup, s.asked, s.log, s.done, s.flagged, s.data, Pending(s));
    } else {
      ServedSized(s, setup);
      ServiceMoves(s, setup);
    }
  }

  lemma ServiceMoves(s: State, setup: Setup)
    requires LinkInv(s) && SearchInv(s) && !s.service.Idle? && Sized(setup, s.service.r)
    ensures
      || Enabled(s, setup, Look) || Enabled(s, setup, Rescan) || Enabled(s, setup, Answer)
      || (s.service.Asleep? && s.service.r.tag >= |s.sinks|)
      || (s.service.Serving? && s.service.r.Get? && s.service.r.tag < |s.sinks| &&
          |Unsent(s.sinks[s.service.r.tag])| < Size(setup, s.service.r))
  {
  }

  // --- Slot rings ---

  lemma Extend(setup: Setup, run: seq<State>, e: Event) returns (run': seq<State>)
    requires IsProtocolRun(setup, run) && Enabled(run[|run| - 1], setup, e)
    ensures IsProtocolRun(setup, run') && run'[|run'| - 1] == Next(run[|run| - 1], setup, e)
  {
    var s' := Next(run[|run| - 1], setup, e);
    run' := run + [s'];
    assert Step(run[|run| - 1], s', setup);
    forall i | 0 <= i < |run'| - 1 ensures Step(run'[i], run'[i + 1], setup) {
      if i < |run| - 1 {
        assert Step(run[i], run[i + 1], setup);
      }
    }
  }

  // Both ends have created n channels and done nothing else.
  ghost predicate OnlyEnds(s: State, n: nat, cap: nat) {
    && s.links == seq(n, i => i) && s.sinks == seq(n, _ => Sink([], 0, cap)) && s.service == Idle && s.clink == -1
    && s.reqs == [] && s.data == [] && s.sources == n && s.killed == {} && s.asked == [] && s.done == 0 && !s.flagged
    && s.got == seq(n, _ => []) && s.log == [] && s.removed == {}
  }

  lemma {:induction false} CreateEnds(setup: Setup, n: nat, cap: nat) returns (run: seq<State>)
    ensures IsProtocolRun(setup, run) && OnlyEnds(run[|run| - 1], n, cap)
  {
    if n == 0 {
      run := [State([], [], Idle, -1, 9999, [], [], 0, {}, [], 0, false, [], [], {})];
    } else {
      run := CreateEnds(setup, n - 1, cap);
      run := Extend(setup, run, CreateSource);
      run := Extend(setup, run, CreateSink(cap));
    }
  }

  // One unit is in a slot and request r for it is with the service thread, which
  // has found the channel.
  ghost predicate Found(s: State, setup: Setup, r: Request, x: seq<byte>) {
    && !r.Kill? && r.tag < |s.links| == |s.sinks| && s.links[r.tag] == r.tag
    && s.sinks[r.tag].put == x && s.sinks[r.tag].sent == 0 && s.service == Serving(r, r.tag)
    && s.reqs == [] && s.data == [] && s.log == [] && s.done == 0 && !s.flagged
    && s.asked == if HasReply(setup, r) then [r] else []
  }

  lemma FindSlot(setup: Setup, r: Request, x: seq<byte>) returns (run: seq<State>)
    requires setup.allowed(r) && !r.Kill? && setup.slot(r.tag) && |x| == setup.unit(r.tag)
    ensures IsProtocolRun(setup, run) && Found(run[|run| - 1], setup, r, x)
  {
    run := CreateEnds(setup, r.tag + 1, |x|);
    run := Extend(setup, run, Put(r.tag, x));
    run := Extend(setup, run, Ask(r));
    run := Extend(setup, run, Take);
    run := Extend(setup, run, Look);
  }

  // A slot ring that is not asked for exactly one unit answers with bytes that the
  // consumer does not read for this request, or does not wait for.
  lemma SlotMisframes(setup: Setup, r: Request) returns (run: seq<State>)
    requires setup.allowed(r) && !r.Kill? && setup.slot(r.tag) && setup.unit(r.tag) > 0 && r.du != 1
    ensures IsProtocolRun(setup, run) && !Framed(run[|run| - 1], setup)
  {
    var x: seq<byte> := seq(setup.unit(r.tag), _ => 0);
    run := FindSlot(setup, r, x);
    var s := run[|run| - 1];
    run := Extend(setup, run, Answer);
    WrongSize(setup, r, x, s, run[|run| - 1]);
  }

  lemma WrongSize(setup: Setup, r: Request, x: seq<byte>, s: State, s': State)
    requires !r.Kill? && setup.slot(r.tag) && |x| == setup.unit(r.tag) > 0 && r.du != 1
    requires Found(s, setup, r, x) && Enabled(s, setup, Answer) && s' == Next(s, setup, Answer)
    ensures !Framed(s', setup)
  {
    assert Unsent(s.sinks[r.tag]) == x && x[..|x|] == x;
    OtherSize(setup.unit(r.tag), r.du);
    if HasReply(setup, r) {
      assert |s'.log[0].bytes| == |x| && !Answers(setup, s'.asked[0], s'.log[0]);
    } else {
      assert Wire(Reply(r.tag, false, true, x)) == x;
      assert |s'.data| > 0 && Due([], 0, false) == [];
    }
  }

  lemma OtherSize(unit: nat, du: nat)
    requires unit > 0 && du != 1
    ensures unit * du != unit
  {
    if du > 1 {
      assert unit * du == unit + unit * (du - 1);
    }
  }

  // Every run is framed, whatever is put and when, if and only if the program asks
  // slot rings for one unit at a time.
  lemma FramedExactlyWhen(setup: Setup)
    ensures (forall run, i :: IsProtocolRun(setup, run) && 0 <= i < |run| ==> Framed(run[i], setup))
            <==> AsksOneSlot(setup)
  {
    if AsksOneSlot(setup) {
      forall run, i | IsProtocolRun(setup, run) && 0 <= i < |run| ensures Framed(run[i], setup) {
        EveryRunFramed(setup, run, i);
      }
    } else {
      var r: Request :| setup.allowed(r) && !r.Kill? && setup.slot(r.tag) && setup.unit(r.tag) > 0 && r.du != 1;
      var run := SlotMisframes(setup, r);
      assert !Framed(run[|run| - 1], setup);
    }
  }
}
