/**
  The pipeline middleware as a concurrent system: any number of requests, each working through the chain it loaded,
  a chain that is swapped under them, and a bounded audit channel into which entries are only ever tried to be sent.
*/
module Gateway {
  import opened Text

  // ---- Chains -------------------------------------------------------------------------------

  datatype Stage = RequestStage | ResponseStage | BothStages

  /** A pipeline; `instance` tells apart two builds of the same pipeline. */
  datatype Pipeline = Pipeline(id: string, stage: Stage, instance: nat)

  type Chain = seq<Pipeline>

  /** The pipelines with an allowed id, in order; all of them when there is no list. */
  function FilterByIds(chain: Chain, allowed: Option<set<string>>): Chain {
    if allowed.None? || chain == [] then chain
    else
      var n := |chain| - 1;
      FilterByIds(chain[..n], allowed) + if chain[n].id in allowed.value then [chain[n]] else []
  }

  /** What the request goes through: forward. */
  function Forward(chain: Chain): Chain {
    if chain == [] then []
    else (if chain[0].stage.ResponseStage? then [] else [chain[0]]) + Forward(chain[1..])
  }

  /** What a response value goes through: backward. */
  function Backward(chain: Chain): Chain {
    if chain == [] then []
    else
      var n := |chain| - 1;
      (if chain[n].stage.RequestStage? then [] else [chain[n]]) + Backward(chain[..n])
  }

  method SubChain(chain: Chain, allowed: Option<set<string>>) returns (r: Chain)
    ensures r == FilterByIds(chain, allowed)
  {
    if allowed.None? {
      return chain;
    }
    r := [];
    var i := 0;
    while i < |chain|
      invariant 0 <= i <= |chain| && r == FilterByIds(chain[..i], allowed)
    {
      assert chain[..i + 1][..i] == chain[..i];
      if chain[i].id in allowed.value {
        r := r + [chain[i]];
      }
      i := i + 1;
    }
    assert chain[..i] == chain;
  }

  /** The sub-chain keeps exactly the allowed pipelines; it does not depend on anything else in the list. */
  lemma {:induction false} FilterKeepsAllowed(chain: Chain, allowed: Option<set<string>>)
    ensures forall p | p in chain && (allowed.Some? ==> p.id in allowed.value) :: p in FilterByIds(chain, allowed)
    ensures forall p | p in FilterByIds(chain, allowed) :: p in chain && (allowed.Some? ==> p.id in allowed.value)
    ensures allowed == Some({}) ==> FilterByIds(chain, allowed) == []
  {
    if allowed.Some? && chain != [] {
      var n := |chain| - 1;
      FilterKeepsAllowed(chain[..n], allowed);
      assert chain == chain[..n] + [chain[n]];
    }
  }

  function Only(p: Pipeline, take: bool): Chain { if take then [p] else [] }

  lemma Assoc(a: Chain, b: Chain, c: Chain)
    ensures (a + b) + c == a + (b + c)
  {
  }

  /** One pipeline alone: whether it is allowed, takes part in the request, takes part in the response. */
  lemma OnePipeline(p: Pipeline, allowed: Option<set<string>>)
    ensures FilterByIds([p], allowed) == Only(p, allowed.None? || p.id in allowed.value)
    ensures Forward([p]) == Only(p, p.stage != ResponseStage)
    ensures Backward([p]) == Only(p, p.stage != RequestStage)
  {
    assert [p][1..] == [] && [p][..0] == [];
    assert FilterByIds([], allowed) == [] && Forward([]) == [] && Backward([]) == [];
  }

  lemma OneMore(chain: Chain, p: Pipeline, allowed: Option<set<string>>)
    ensures FilterByIds(chain + [p], allowed) == FilterByIds(chain, allowed) + FilterByIds([p], allowed)
    ensures Backward(chain + [p]) == Backward([p]) + Backward(chain)
    ensures Forward([p] + chain) == Forward([p]) + Forward(chain)
  {
    OnePipeline(p, allowed);
    assert (chain + [p])[..|chain|] == chain && ([p] + chain)[1..] == chain;
  }

  lemma NoPipeline(allowed: Option<set<string>>)
    ensures FilterByIds([], allowed) == [] && Forward([]) == [] && Backward([]) == []
    ensures forall c: Chain :: c + [] == c == [] + c
  {
  }

  /** The last pipeline of the second chain is the last of both, and the first of the first chain is the first. */
  lemma TakenApart(a: Chain, b: Chain)
    ensures b != [] ==> a + b == (a + b[..|b| - 1]) + [b[|b| - 1]] && b == b[..|b| - 1] + [b[|b| - 1]]
    ensures a != [] ==> a + b == [a[0]] + (a[1..] + b) && a == [a[0]] + a[1..]
  {
  }

  /** The order is kept: what is allowed of two chains in a row is what is allowed of the first, then of the second. */
  lemma {:induction false} FilterKeepsOrder(a: Chain, b: Chain, allowed: Option<set<string>>)
    ensures FilterByIds(a + b, allowed) == FilterByIds(a, allowed) + FilterByIds(b, allowed)
  {
    hide FilterByIds;
    TakenApart(a, b);
    if b == [] {
      NoPipeline(allowed);
    } else {
      var rest, p := b[..|b| - 1], b[|b| - 1];
      FilterKeepsOrder(a, rest, allowed);
      OneMore(a + rest, p, allowed);
      OneMore(rest, p, allowed);
      Assoc(FilterByIds(a, allowed), FilterByIds(rest, allowed), FilterByIds([p], allowed));
    }
  }

  /** A request goes forward through two chains in a row: through the first, then through the second. */
  lemma {:induction false} ForwardInOrder(a: Chain, b: Chain)
    ensures Forward(a + b) == Forward(a) + Forward(b)
  {
    hide Forward;
    TakenApart(a, b);
    if a == [] {
      NoPipeline(None);
    } else {
      var p, rest := a[0], a[1..];
      ForwardInOrder(rest, b);
      OneMore(rest + b, p, None);
      OneMore(rest, p, None);
      Assoc(Forward([p]), Forward(rest), Forward(b));
    }
  }

  /** A response value goes backward: through the second, then through the first. */
  lemma {:induction false} BackwardInOrder(a: Chain, b: Chain)
    ensures Backward(a + b) == Backward(b) + Backward(a)
  {
    hide Backward;
    TakenApart(a, b);
    if b == [] {
      NoPipeline(None);
    } else {
      var rest, p := b[..|b| - 1], b[|b| - 1];
      BackwardInOrder(a, rest);
      OneMore(a + rest, p, None);
      OneMore(rest, p, None);
      Assoc(Backward([p]), Backward(rest), Backward(a));
    }
  }

  // ---- Requests -----------------------------------------------------------------------------

  datatype Entry = Entry(pipeline: string, action: string)

  datatype Body = TooLarge | Blank | NotJson | Json

  /** What the inner service answers; a stream with the number of its JSON values. */
  datatype Reply = Failed | Unreadable | NoBody | OtherBody | JsonBody | Stream(values: nat)

  datatype Goal = ToCall | ToEnd | ToValue(left: nat)

  datatype Pc =
    | Begun
    | Applying(todo: Chain, goal: Goal)
    | Draining(pending: seq<Entry>, calls: bool)
    | Calling
    | Finished

  datatype Fate = Fate(entry: Entry, accepted: bool)

  /**
    A request: what it loaded, its body, where it is, its audit log; and its history: the pipelines applied to the
    request and to each response value, the reply, whether a pipeline refused, all entries recorded, and what became
    of those drained.
   */
  datatype Request = Request(snapshot: Chain, effective: Chain, body: Body, pc: Pc, log: seq<Entry>, forward: Chain,
                             passes: seq<Chain>, reply: Option<Reply>, refused: bool, recorded: seq<Entry>,
                             fates: seq<Fate>)

  /** The world's answer to a step: what a pipeline records and whether it lets the value pass, or what comes back. */
  datatype Answer = Answer(entries: seq<Entry>, ok: bool, reply: Reply)

  function Entries(fates: seq<Fate>): (r: seq<Entry>)
    ensures |r| == |fates|
  {
    seq(|fates|, i requires 0 <= i < |fates| => fates[i].entry)
  }

  function Accepted(fates: seq<Fate>): seq<Entry> {
    if fates == [] then []
    else
      var n := |fates| - 1;
      Accepted(fates[..n]) + if fates[n].accepted then [fates[n].entry] else []
  }

  function AllDropped(log: seq<Entry>): seq<Fate> {
    seq(|log|, i requires 0 <= i < |log| => Fate(log[i], false))
  }

  /** The log is taken; without a channel its entries are dropped at once. */
  function StartDrain(q: Request, wired: bool, calls: bool): Request {
    if wired then q.(pc := Draining(q.log, calls), log := [])
    else q.(pc := Draining([], calls), log := [], fates := q.fates + AllDropped(q.log))
  }

  function Apply(q: Request, p: Pipeline, goal: Goal, entries: seq<Entry>): Request
    requires !goal.ToCall? ==> q.passes != []
  {
    var q' := q.(log := q.log + entries, recorded := q.recorded + entries);
    if goal.ToCall? then q'.(forward := q.forward + [p])
    else
      var n := |q.passes| - 1;
      q'.(passes := q.passes[..n] + [q.passes[n] + [p]])
  }

  function NextPass(q: Request, goal: Goal): Request {
    q.(pc := Applying(Backward(q.effective), goal), passes := q.passes + [[]])
  }

  /** The chain has no part in the call. */
  predicate PassesBy(q: Request) {
    q.snapshot == [] || q.body != Json || q.effective == []
  }

  /** How many values of the reply go through the chain. */
  function Values(reply: Option<Reply>): nat {
    match reply
    case Some(JsonBody) => 1
    case Some(Stream(values)) => values
    case _ => 0
  }

  /** A step of a request that does not touch the channel. */
  function Advance(q: Request, wired: bool, a: Answer): Request
    requires Fits(q)
  {
    match q.pc
    case Begun =>
      if PassesBy(q) then q.(pc := Finished) else q.(pc := Applying(Forward(q.effective), ToCall))
    case Applying(todo, goal) =>
      if todo != [] then
        var q' := Apply(q, todo[0], goal, a.entries);
        if a.ok then q'.(pc := Applying(todo[1..], goal)) else StartDrain(q'.(refused := true), wired, false)
      else if goal.ToCall? then StartDrain(q, wired, true)
      else if goal.ToEnd? || goal.left == 0 then StartDrain(q, wired, false)
      else NextPass(q, ToValue(goal.left - 1))
    case Calling =>
      // Not `ok`: the rewritten request could not be encoded, and was not sent.
      var q' := if a.ok then q.(reply := Some(a.reply)) else q;
      if a.ok && a.reply.JsonBody? then NextPass(q', ToEnd)
      else if a.ok && a.reply.Stream? then q'.(pc := Applying([], ToValue(a.reply.values)))
      else q'.(pc := Finished)
    case Draining(_, calls) => q.(pc := if calls then Calling else Finished)
    case Finished => q
  }

  // ---- The system ---------------------------------------------------------------------------

  datatype Sent = Sent(request: nat, entry: Entry)

  datatype System = System(chain: Chain, wired: bool, cap: nat, open: bool, queue: seq<Entry>,
                           requests: map<nat, Request>, received: seq<Entry>, sent: seq<Sent>)

  datatype Action =
    | Swap(chain: Chain)
    | Receive
    | Close
    | Call(id: nat, allowed: Option<set<string>>, body: Body)
    | Act(id: nat, answer: Answer)

  /** A request that has just loaded its chain. */
  function Loaded(chain: Chain, effective: Chain, body: Body): Request {
    Request(chain, effective, body, Begun, [], [], [], None, false, [], [])
  }

  function Start(chain: Chain, wired: bool, cap: nat): System {
    System(chain, wired, cap, true, [], map[], [], [])
  }

  predicate Sends(q: Request) { q.pc.Draining? && q.pc.pending != [] }

  /** One `try_send`. */
  function TrySend(s: System, id: nat): System
    requires id in s.requests && Sends(s.requests[id])
  {
    var q := s.requests[id];
    var entry := q.pc.pending[0];
    var ok := s.open && |s.queue| < s.cap;
    var q' := q.(pc := Draining(q.pc.pending[1..], q.pc.calls), fates := q.fates + [Fate(entry, ok)]);
    s.(queue := if ok then s.queue + [entry] else s.queue,
       sent := if ok then s.sent + [Sent(id, entry)] else s.sent,
       requests := s.requests[id := q'])
  }

  /** One step of the system; an action that is not possible changes nothing. */
  function Do(s: System, a: Action): System
    requires Inv(s)
  {
    match a
    case Swap(chain) => s.(chain := chain)
    case Receive => if s.queue == [] then s else s.(queue := s.queue[1..], received := s.received + [s.queue[0]])
    case Close => s.(open := false, queue := [])
    case Call(id, allowed, body) =>
      if id in s.requests then s
      else s.(requests := s.requests[id := Loaded(s.chain, FilterByIds(s.chain, allowed), body)])
    case Act(id, answer) =>
      if id !in s.requests then s
      else if Sends(s.requests[id]) then TrySend(s, id)
      else s.(requests := s.requests[id := Advance(s.requests[id], s.wired, answer)])
  }

  // ---- The invariant ------------------------------------------------------------------------

  /** The pending entries of a drain under way. */
  function Pending(q: Request): seq<Entry> {
    if q.pc.Draining? then q.pc.pending else []
  }

  /** Every pass but the last is a whole one. */
  predicate WholePasses(q: Request) {
    forall i | 0 <= i < |q.passes| - 1 :: q.passes[i] == Backward(q.effective)
  }

  /**
    Nothing was left out, unless a pipeline refused: the request went through the whole chain if the chain has a
    part in the call, and so did every value of the reply.
   */
  predicate Complete(q: Request) {
    !q.refused ==>
      && q.forward == (if PassesBy(q) then [] else Forward(q.effective))
      && |q.passes| == Values(q.reply) && (PassesBy(q) ==> q.passes == [])
      && forall i | 0 <= i < |q.passes| :: q.passes[i] == Backward(q.effective)
  }

  /** Only the effective chain is applied, in its order: forward once, then backward for each response value. */
  predicate Fits(q: Request) {
    && WholePasses(q)
    && (q.passes != [] ==> q.forward == Forward(q.effective) && q.passes[|q.passes| - 1] <= Backward(q.effective))
    && q.forward <= Forward(q.effective)
    && match q.pc
       case Begun => q.forward == [] && q.passes == [] && q.reply.None? && !q.refused
       case Applying(todo, goal) =>
         && !PassesBy(q) && !q.refused
         && if goal.ToCall? then q.forward + todo == Forward(q.effective) && q.passes == [] && q.reply.None?
            else
              && q.forward == Forward(q.effective) && |q.passes| + Left(goal) == Values(q.reply)
              && if q.passes == [] then todo == [] && goal.ToValue?
                 else q.passes[|q.passes| - 1] + todo == Backward(q.effective)
       case Draining(_, calls) => Complete(q) && (calls ==> Called(q))
       case Calling => Called(q)
       case Finished => Complete(q)
  }

  /** The response values still to come. */
  function Left(goal: Goal): nat {
    if goal.ToValue? then goal.left else 0
  }

  /** The request has gone through the chain, and the reply is not there yet. */
  predicate Called(q: Request) {
    !PassesBy(q) && !q.refused && q.forward == Forward(q.effective) && q.passes == [] && q.reply.None?
  }

  /** Every recorded entry has met its fate, is being drained, or is in the log, in this order. */
  predicate Accounted(q: Request) {
    q.recorded == Entries(q.fates) + Pending(q) + q.log && (q.log != [] ==> q.pc.Applying?)
  }

  /** The entries the channel accepted from a request. */
  function From(sent: seq<Sent>, id: nat): seq<Entry> {
    if sent == [] then []
    else
      var n := |sent| - 1;
      From(sent[..n], id) + if sent[n].request == id then [sent[n].entry] else []
  }

  function Contents(sent: seq<Sent>): (r: seq<Entry>)
    ensures |r| == |sent|
  {
    seq(|sent|, i requires 0 <= i < |sent| => sent[i].entry)
  }

  ghost predicate Inv(s: System) {
    && (forall id | id in s.requests :: Fits(s.requests[id]))
    && (forall id | id in s.requests :: Accounted(s.requests[id]))
    && (forall id | id in s.requests :: From(s.sent, id) == Accepted(s.requests[id].fates))
    && (forall id | id !in s.requests :: From(s.sent, id) == [])
    && |s.queue| <= s.cap
    && s.received + s.queue <= Contents(s.sent)
    && (s.open ==> s.received + s.queue == Contents(s.sent))
  }

  // ---- Steps keep it ------------------------------------------------------------------------

  lemma {:induction false} DroppedEntries(fates: seq<Fate>, log: seq<Entry>)
    ensures Entries(fates + AllDropped(log)) == Entries(fates) + log
    ensures Accepted(fates + AllDropped(log)) == Accepted(fates)
  {
    if log == [] {
      assert fates + AllDropped(log) == fates;
    } else {
      var n := |log| - 1;
      DroppedEntries(fates, log[..n]);
      var all := fates + AllDropped(log);
      assert all == (fates + AllDropped(log[..n])) + [Fate(log[n], false)];
      assert all[..|all| - 1] == fates + AllDropped(log[..n]);
    }
  }

  /** The log is empty, and every entry is either pending or has met its fate. */
  lemma StartDrainKeeps(q: Request, wired: bool, calls: bool)
    requires q.pc.Applying? && Accounted(q)
    ensures
      var q' := StartDrain(q, wired, calls);
      Accounted(q') && Accepted(q'.fates) == Accepted(q.fates) && q'.log == []
  {
    hide Accepted;
    DroppedEntries(q.fates, q.log);
    assert forall e: seq<Entry> :: e + [] == e;
  }

  lemma ApplyKeeps(q: Request, p: Pipeline, todo: Chain, goal: Goal, entries: seq<Entry>)
    requires Fits(q) && Accounted(q) && q.pc == Applying([p] + todo, goal)
    requires !goal.ToCall? ==> q.passes != []
    ensures
      var q' := Apply(q, p, goal, entries).(pc := Applying(todo, goal));
      Fits(q') && Accounted(q')
  {
    hide Forward, Backward, Entries;
    if goal.ToCall? {
      assert (q.forward + [p]) + todo == q.forward + ([p] + todo);
    } else {
      var last := q.passes[|q.passes| - 1];
      assert (last + [p]) + todo == last + ([p] + todo);
    }
    assert Entries(q.fates) + [] + (q.log + entries) == Entries(q.fates) + [] + q.log + entries;
  }

  lemma DrainFits(q: Request, todo: Chain, goal: Goal, wired: bool)
    requires Fits(q) && q.pc == Applying(todo, goal)
    ensures Fits(StartDrain(q.(refused := true), wired, false))
    ensures todo == [] && !goal.ToCall? && Left(goal) == 0 ==> Fits(StartDrain(q, wired, false))
    ensures todo == [] && goal.ToCall? ==> Fits(StartDrain(q, wired, true))
  {
    hide Forward, Backward;
    assert forall c: Chain :: c + [] == c;
    assert q.passes != [] && todo == [] ==> q.passes[|q.passes| - 1] + [] == q.passes[|q.passes| - 1];
  }

  lemma StillAccounted(q: Request)
    requires Accounted(q)
    ensures Accounted(q.(refused := true))
  {
  }

  lemma AppliedStepKeeps(q: Request, wired: bool, a: Answer)
    requires Fits(q) && Accounted(q) && q.pc.Applying? && q.pc.todo != []
    ensures
      var q' := Advance(q, wired, a);
      Fits(q') && Accounted(q') && Accepted(q'.fates) == Accepted(q.fates)
  {
    var todo, goal := q.pc.todo, q.pc.goal;
    assert todo == [todo[0]] + todo[1..];
    ApplyKeeps(q, todo[0], todo[1..], goal, a.entries);
    var q' := Apply(q, todo[0], goal, a.entries).(pc := Applying(todo[1..], goal));
    hide Fits, Accounted, Accepted;
    DrainFits(q', todo[1..], goal, wired);
    StillAccounted(q');
    StartDrainKeeps(q'.(refused := true), wired, false);
    assert StartDrain(q'.(refused := true), wired, false) ==
           StartDrain(Apply(q, todo[0], goal, a.entries).(refused := true), wired, false);
  }

  lemma PassStarts(q: Request)
    requires Fits(q) && Accounted(q) && q.pc.Applying? && q.pc.todo == [] && q.pc.goal.ToValue? && q.pc.goal.left > 0
    ensures
      var q' := NextPass(q, ToValue(q.pc.goal.left - 1));
      Fits(q') && Accounted(q')
  {
    hide Forward, Backward;
    assert [] + Backward(q.effective) == Backward(q.effective);
    assert q.passes != [] ==> q.passes[|q.passes| - 1] + [] == q.passes[|q.passes| - 1];
  }

  /** What a reply leads to. */
  lemma ReplyCame(q: Request, reply: Reply)
    requires Fits(q) && Accounted(q) && q.pc.Calling?
    ensures
      var q' := q.(reply := Some(reply));
      match reply
      case JsonBody => Fits(NextPass(q', ToEnd)) && Accounted(NextPass(q', ToEnd))
      case Stream(values) =>
        var begun := q'.(pc := Applying([], ToValue(values)));
        Fits(begun) && Accounted(begun)
      case _ => Fits(q'.(pc := Finished)) && Accounted(q'.(pc := Finished))
  {
    hide Forward, Backward, Entries;
    assert [] + Backward(q.effective) == Backward(q.effective);
  }

  /** Moving on with nothing left to drain. */
  lemma MovesOn(q: Request)
    requires Fits(q) && Accounted(q) && !q.pc.Applying? && !Sends(q)
    ensures !q.pc.Begun? || PassesBy(q) ==> Fits(q.(pc := Finished)) && Accounted(q.(pc := Finished))
    ensures q.pc.Draining? && q.pc.calls ==> Fits(q.(pc := Calling)) && Accounted(q.(pc := Calling))
    ensures q.pc.Begun? && !PassesBy(q) ==>
              var q' := q.(pc := Applying(Forward(q.effective), ToCall));
              Fits(q') && Accounted(q')
  {
    hide Forward, Backward, Entries;
    assert [] + Forward(q.effective) == Forward(q.effective);
  }

  /** A step of a request by itself. */
  lemma AdvanceKeeps(q: Request, wired: bool, a: Answer)
    requires Fits(q) && Accounted(q) && !Sends(q)
    ensures
      var q' := Advance(q, wired, a);
      && Fits(q') && Accounted(q') && Accepted(q'.fates) == Accepted(q.fates)
      && q'.snapshot == q.snapshot && q'.effective == q.effective && q'.body == q.body
  {
    hide Accepted, Forward, Backward, Entries, Fits, Accounted, PassesBy;
    if q.pc.Applying? {
      if q.pc.todo != [] {
        AppliedStepKeeps(q, wired, a);
      } else {
        DrainFits(q, [], q.pc.goal, wired);
        StartDrainKeeps(q, wired, q.pc.goal.ToCall?);
        if q.pc.goal.ToValue? && q.pc.goal.left > 0 {
          PassStarts(q);
        }
      }
    } else {
      MovesOn(q);
      if q.pc.Calling? {
        ReplyCame(q, a.reply);
      }
    }
  }

  lemma FateEntries(fates: seq<Fate>, fate: Fate, pending: seq<Entry>)
    requires pending != [] && fate.entry == pending[0]
    ensures Entries(fates + [fate]) + pending[1..] == Entries(fates) + pending
    ensures Accepted(fates + [fate]) == Accepted(fates) + if fate.accepted then [fate.entry] else []
  {
    assert (fates + [fate])[..|fates|] == fates;
  }

  lemma FromOne(sent: seq<Sent>, x: Sent, id: nat)
    ensures From(sent + [x], id) == From(sent, id) + if x.request == id then [x.entry] else []
    ensures Contents(sent + [x]) == Contents(sent) + [x.entry]
  {
    assert (sent + [x])[..|sent|] == sent;
  }

  lemma TrySendKeepsRequest(q: Request, ok: bool)
    requires Fits(q) && Accounted(q) && Sends(q)
    ensures
      var q' := q.(pc := Draining(q.pc.pending[1..], q.pc.calls), fates := q.fates + [Fate(q.pc.pending[0], ok)]);
      && Fits(q') && Accounted(q')
      && Accepted(q'.fates) == Accepted(q.fates) + if ok then [q.pc.pending[0]] else []
  {
    hide Forward, Backward, Accepted;
    FateEntries(q.fates, Fate(q.pc.pending[0], ok), q.pc.pending);
  }

  lemma TrySendKeeps(s: System, id: nat)
    requires Inv(s) && id in s.requests && Sends(s.requests[id])
    ensures Inv(TrySend(s, id))
  {
    hide Fits, Accounted, From, Accepted, Contents;
    var q := s.requests[id];
    var entry := q.pc.pending[0];
    var ok := s.open && |s.queue| < s.cap;
    TrySendKeepsRequest(q, ok);
    forall other: nat
      ensures From(s.sent + [Sent(id, entry)], other) == From(s.sent, other) + if other == id then [entry] else []
    {
      FromOne(s.sent, Sent(id, entry), other);
    }
    FromOne(s.sent, Sent(id, entry), id);
    if ok {
      assert s.received + (s.queue + [entry]) == (s.received + s.queue) + [entry];
    }
  }

  lemma ActKeeps(s: System, id: nat, a: Answer)
    requires Inv(s) && id in s.requests && !Sends(s.requests[id])
    ensures Inv(s.(requests := s.requests[id := Advance(s.requests[id], s.wired, a)]))
  {
    hide Fits, Accounted, From, Accepted, Contents, Advance;
    assert Fits(s.requests[id]);
    AdvanceKeeps(s.requests[id], s.wired, a);
  }

  lemma NewRequest(chain: Chain, effective: Chain, body: Body)
    ensures
      var q := Loaded(chain, effective, body);
      Fits(q) && Accounted(q) && Accepted(q.fates) == []
  {
    hide Forward, Backward;
  }

  lemma CallKeeps(s: System, id: nat, allowed: Option<set<string>>, body: Body)
    requires Inv(s) && id !in s.requests
    ensures Inv(Do(s, Call(id, allowed, body)))
  {
    hide Fits, Accounted, From, Accepted, Contents, FilterByIds;
    NewRequest(s.chain, FilterByIds(s.chain, allowed), body);
  }

  lemma ReceiveKeeps(s: System)
    requires Inv(s) && s.queue != []
    ensures Inv(Do(s, Receive))
  {
    hide Fits, Accounted, From, Accepted, Contents;
    assert (s.received + [s.queue[0]]) + s.queue[1..] == s.received + s.queue;
  }

  lemma CloseKeeps(s: System)
    requires Inv(s)
    ensures Inv(Do(s, Close))
  {
    hide Fits, Accounted, From, Accepted, Contents;
    assert s.received + [] <= s.received + s.queue;
  }

  /** Every step keeps the invariant, and no step changes what a request has loaded. */
  lemma StepKeeps(s: System, a: Action)
    requires Inv(s)
    ensures Inv(Do(s, a)) && StillLoaded(s, Do(s, a))
  {
    hide Inv, StillLoaded;
    StepKeepsInv(s, a);
    StepKeepsLoaded(s, a);
  }

  /** All requests are still there, with what they have loaded. */
  ghost predicate StillLoaded(s: System, t: System) {
    forall id | id in s.requests ::
      && id in t.requests && t.requests[id].snapshot == s.requests[id].snapshot
      && t.requests[id].effective == s.requests[id].effective && t.requests[id].body == s.requests[id].body
  }

  lemma StepKeepsLoaded(s: System, a: Action)
    requires Inv(s)
    ensures StillLoaded(s, Do(s, a))
  {
    hide Fits, Accounted, From, Accepted, Contents, Advance, FilterByIds;
    if a.Act? && a.id in s.requests && !Sends(s.requests[a.id]) {
      assert Fits(s.requests[a.id]) && Accounted(s.requests[a.id]);
      AdvanceKeeps(s.requests[a.id], s.wired, a.answer);
    }
  }

  lemma StepKeepsInv(s: System, a: Action)
    requires Inv(s)
    ensures Inv(Do(s, a))
  {
    hide Fits, Accounted, From, Accepted, Contents, Advance, FilterByIds, TrySend;
    match a
    case Swap(_) =>
    case Receive => if s.queue != [] { ReceiveKeeps(s); }
    case Close => CloseKeeps(s);
    case Call(id, allowed, body) => if id !in s.requests { CallKeeps(s, id, allowed, body); }
    case Act(id, answer) =>
      if id in s.requests {
        if Sends(s.requests[id]) {
          TrySendKeeps(s, id);
        } else {
          assert Fits(s.requests[id]) && Accounted(s.requests[id]);
          AdvanceKeeps(s.requests[id], s.wired, answer);
          ActKeeps(s, id, answer);
        }
      }
  }

  lemma AdvanceDropsNothing(q: Request, a: Answer)
    requires Fits(q)
    ensures Advance(q, true, a).fates == q.fates
  {
    hide Fits, Forward, Backward;
  }

  /**
    With a channel, an entry meets its fate only when it is tried to be sent, and then it is dropped if and only if
    the channel is full or closed.
   */
  lemma DropsOnlyWhenFullOrClosed(s: System, a: Action, id: nat)
    requires Inv(s) && id in s.requests && s.wired
    ensures
      var q, q' := s.requests[id], Do(s, a).requests[id];
      if a.Act? && a.id == id && Sends(q) then
        q'.fates == q.fates + [Fate(q.pc.pending[0], s.open && |s.queue| < s.cap)]
      else q'.fates == q.fates
  {
    hide Accounted, From, Accepted, Contents, Advance;
    assert Fits(s.requests[id]);
    if a.Act? && a.id == id && !Sends(s.requests[id]) {
      AdvanceDropsNothing(s.requests[id], a.answer);
    }
  }

  // ---- Whole runs ---------------------------------------------------------------------------

  ghost function After(s: System, actions: seq<Action>): (r: System)
    requires Inv(s)
    ensures Inv(r)
    decreases |actions|
  {
    if actions == [] then s
    else
      StepKeeps(s, actions[0]);
      After(Do(s, actions[0]), actions[1..])
  }

  /** The system after any run. */
  ghost function Run(chain: Chain, wired: bool, cap: nat, actions: seq<Action>): (r: System)
    ensures Inv(r)
  {
    StartsWell(chain, wired, cap);
    After(Start(chain, wired, cap), actions)
  }

  lemma StartsWell(chain: Chain, wired: bool, cap: nat)
    ensures Inv(Start(chain, wired, cap))
  {
  }

  lemma {:induction false} AfterConcat(s: System, a: seq<Action>, b: seq<Action>)
    requires Inv(s)
    ensures After(s, a + b) == After(After(s, a), b)
    decreases |a|
  {
    hide Inv, Do;
    if a == [] {
      assert a + b == b;
    } else {
      assert (a + b)[1..] == a[1..] + b;
      StepKeeps(s, a[0]);
      AfterConcat(Do(s, a[0]), a[1..], b);
    }
  }

  lemma {:induction false} LoadedStays(s: System, actions: seq<Action>, id: nat)
    requires Inv(s) && id in s.requests
    ensures id in After(s, actions).requests
    ensures After(s, actions).requests[id].snapshot == s.requests[id].snapshot
    ensures After(s, actions).requests[id].effective == s.requests[id].effective
    ensures After(s, actions).requests[id].body == s.requests[id].body
    decreases |actions|
  {
    hide Inv, Do;
    if actions != [] {
      StepKeeps(s, actions[0]);
      LoadedStays(Do(s, actions[0]), actions[1..], id);
    }
  }

  lemma CallLoads(s: System, id: nat, allowed: Option<set<string>>, body: Body)
    requires Inv(s) && id !in s.requests
    ensures
      var s' := Do(s, Call(id, allowed, body));
      && Inv(s') && id in s'.requests && s'.requests[id].snapshot == s.chain && s'.requests[id].body == body
      && s'.requests[id].effective == FilterByIds(s.chain, allowed)
  {
    hide Inv, FilterByIds;
    StepKeeps(s, Call(id, allowed, body));
  }

  /** Which pipelines a request has applied, and in which order, for the chain it loaded. */
  ghost predicate AppliesOnly(q: Request, effective: Chain) {
    && q.forward <= Forward(effective)
    && (q.passes != [] ==> q.forward == Forward(effective) && q.passes[|q.passes| - 1] <= Backward(effective))
    && (forall i | 0 <= i < |q.passes| - 1 :: q.passes[i] == Backward(effective))
  }

  /** The chain has had its whole part in a call that has ended without a refusal. */
  ghost predicate AppliedAll(q: Request, loaded: Chain, effective: Chain, body: Body) {
    if loaded == [] || body != Json || effective == [] then q.forward == [] && q.passes == []
    else
      && q.forward == Forward(effective)
      && |q.passes| == Values(q.reply) && forall i | 0 <= i < |q.passes| :: q.passes[i] == Backward(effective)
  }

  /**
    Whatever the interleaving of requests, swaps and receives: a request applies to its request, its response and
    each value of its stream only the chain that was current when it was called, narrowed to its key's pipelines:
    once forward, then backward for each value, every pass but the last a whole one.  When the request has ended
    without a refusal, it and every value of its reply have gone through the whole chain, if the chain has a part.
   */
  lemma OnlyTheLoadedChain(chain: Chain, wired: bool, cap: nat, before: seq<Action>, after: seq<Action>,
                           id: nat, allowed: Option<set<string>>, body: Body)
    requires id !in Run(chain, wired, cap, before).requests
    ensures
      var loaded := Run(chain, wired, cap, before).chain;
      var s := Run(chain, wired, cap, before + ([Call(id, allowed, body)] + after));
      var effective := FilterByIds(loaded, allowed);
      && id in s.requests && AppliesOnly(s.requests[id], effective)
      && (s.requests[id].pc.Finished? && !s.requests[id].refused ==>
            AppliedAll(s.requests[id], loaded, effective, body))
  {
    hide Inv, Do, FilterByIds, AppliesOnly, AppliedAll;
    var start, call := Start(chain, wired, cap), Call(id, allowed, body);
    StartsWell(chain, wired, cap);
    var here := After(start, before);
    AfterConcat(start, before, [call] + after);
    assert ([call] + after)[1..] == after;
    CallLoads(here, id, allowed, body);
    LoadedStays(Do(here, call), after, id);
    FitsMeansAppliesOnly(After(Do(here, call), after), id);
  }

  lemma FitsMeansAppliesOnly(s: System, id: nat)
    requires Inv(s) && id in s.requests
    ensures
      var q := s.requests[id];
      AppliesOnly(q, q.effective) && (q.pc.Finished? && !q.refused ==> AppliedAll(q, q.snapshot, q.effective, q.body))
  {
    hide Forward, Backward, From, Accepted, Accounted;
    assert Fits(s.requests[id]);
  }

  /**
    When a request has ended its audit log is empty: every entry its pipelines recorded was either accepted by the
    channel or dropped, in the order of recording; and the channel's accepted entries of this request are exactly
    the accepted ones, in that order.  What the receiver has, and what is queued, are the accepted entries in order.
   */
  lemma AuditIsAccounted(chain: Chain, wired: bool, cap: nat, actions: seq<Action>, id: nat)
    requires id in Run(chain, wired, cap, actions).requests && Run(chain, wired, cap, actions).requests[id].pc.Finished?
    ensures
      var s := Run(chain, wired, cap, actions);
      var q := s.requests[id];
      && q.log == [] && Entries(q.fates) == q.recorded && From(s.sent, id) == Accepted(q.fates)
      && |s.queue| <= s.cap && s.received + s.queue <= Contents(s.sent)
      && (s.open ==> s.received + s.queue == Contents(s.sent))
  {
    hide From, Accepted, Fits, Run;
    var s := Run(chain, wired, cap, actions);
    assert Accounted(s.requests[id]);
    assert Entries(s.requests[id].fates) + [] + [] == Entries(s.requests[id].fates);
  }

  // ---- Every call is answered ---------------------------------------------------------------

  /** Whenever the request asks, the world lets it pass, and replies with `reply`. */
  ghost predicate Granted(actions: seq<Action>, id: nat, reply: Reply) {
    forall a | a in actions && a.Act? && a.id == id :: a.answer.ok && a.answer.reply == reply
  }

  /** Nothing was refused, and from the call on the reply is there. */
  predicate Heard(q: Request, reply: Reply) {
    && !q.refused && (q.reply.Some? ==> q.reply.value == reply)
    && match q.pc
       case Begun => true
       case Applying(_, goal) => goal.ToCall? || q.reply.Some?
       case Draining(_, calls) => calls || q.reply.Some?
       case Calling => true
       case Finished => PassesBy(q) || q.reply.Some?
  }

  lemma HeardOn(q: Request, wired: bool, a: Answer)
    requires Fits(q) && Heard(q, a.reply) && a.ok
    ensures Heard(Advance(q, wired, a), a.reply)
  {
    hide Fits, Forward, Backward, AllDropped;
  }

  lemma HeardStep(s: System, a: Action, id: nat, reply: Reply)
    requires Inv(s) && id in s.requests && Heard(s.requests[id], reply) && Granted([a], id, reply)
    ensures id in Do(s, a).requests && Heard(Do(s, a).requests[id], reply)
  {
    hide Accounted, From, Accepted, Contents, Advance, Fits, FilterByIds;
    assert a in [a];
    if a.Act? && a.id == id && !Sends(s.requests[id]) {
      HeardOn(s.requests[id], s.wired, a.answer);
    }
  }

  lemma {:induction false} HeardAfter(s: System, actions: seq<Action>, id: nat, reply: Reply)
    requires Inv(s) && id in s.requests && Heard(s.requests[id], reply) && Granted(actions, id, reply)
    ensures id in After(s, actions).requests && Heard(After(s, actions).requests[id], reply)
    decreases |actions|
  {
    hide Inv, Do, Heard;
    if actions != [] {
      var a := actions[0];
      assert forall x | x in [a] :: x in actions;
      assert forall x | x in actions[1..] :: x in actions;
      StepKeeps(s, a);
      HeardStep(s, a, id, reply);
      HeardAfter(Do(s, a), actions[1..], id, reply);
    }
  }

  /**
    A request whose steps are all let pass ends with the inner service's reply, after it and every value of the reply
    have gone through the whole chain: nobody else's steps, no swap and no full channel changes that.
   */
  lemma GrantedIsAnswered(chain: Chain, wired: bool, cap: nat, before: seq<Action>, after: seq<Action>, id: nat,
                          allowed: Option<set<string>>, reply: Reply)
    requires id !in Run(chain, wired, cap, before).requests && Granted(after, id, reply)
    ensures
      var loaded := Run(chain, wired, cap, before).chain;
      var s := Run(chain, wired, cap, before + ([Call(id, allowed, Json)] + after));
      var effective := FilterByIds(loaded, allowed);
      id in s.requests && (s.requests[id].pc.Finished? && loaded != [] && effective != [] ==>
        var q := s.requests[id];
        && !q.refused && q.reply == Some(reply) && q.forward == Forward(effective)
        && |q.passes| == (match reply case JsonBody => 1 case Stream(values) => values case _ => 0)
        && forall i | 0 <= i < |q.passes| :: q.passes[i] == Backward(effective))
  {
    hide Inv, Do, FilterByIds, AppliesOnly, Forward, Backward;
    OnlyTheLoadedChain(chain, wired, cap, before, after, id, allowed, Json);
    var start, call := Start(chain, wired, cap), Call(id, allowed, Json);
    StartsWell(chain, wired, cap);
    var here := After(start, before);
    AfterConcat(start, before, [call] + after);
    assert ([call] + after)[1..] == after;
    CallLoads(here, id, allowed, Json);
    FreshIsHeard(here, id, allowed, reply);
    LoadedStays(Do(here, call), after, id);
    HeardAfter(Do(here, call), after, id, reply);
  }

  lemma FreshIsHeard(s: System, id: nat, allowed: Option<set<string>>, reply: Reply)
    requires Inv(s) && id !in s.requests
    ensures
      var s' := Do(s, Call(id, allowed, Json));
      id in s'.requests && Heard(s'.requests[id], reply)
  {
    hide Inv, FilterByIds;
  }

  /** How far a request is from its end: the phase, the values still to come, the work on the present one. */
  datatype Distance = Distance(phase: nat, values: nat, work: nat)

  function ToGo(q: Request): Distance {
    match q.pc
    case Begun => Distance(5, 0, 0)
    case Applying(todo, ToCall) => Distance(4, 0, |todo|)
    case Draining(pending, true) => Distance(3, 0, |pending|)
    case Calling => Distance(2, 0, 0)
    case Applying(todo, goal) => Distance(1, Left(goal), |todo|)
    case Draining(pending, false) => Distance(0, 0, |pending| + 1)
    case Finished => Distance(0, 0, 0)
  }

  predicate Nearer(a: Distance, b: Distance) {
    || a.phase < b.phase || (a.phase == b.phase && a.values < b.values)
    || (a.phase == b.phase && a.values == b.values && a.work < b.work)
  }

  lemma AdvanceNearer(q: Request, wired: bool, a: Answer)
    requires Fits(q) && !Sends(q) && !q.pc.Finished?
    ensures Nearer(ToGo(Advance(q, wired, a)), ToGo(q))
  {
    hide Fits, Forward, Backward, AllDropped;
  }

  /** Whatever comes back, each step of a request brings it nearer to its end; nobody else's step moves it away. */
  lemma EveryStepCounts(s: System, a: Action, id: nat)
    requires Inv(s) && id in s.requests
    ensures
      var q, q' := s.requests[id], Do(s, a).requests[id];
      if a.Act? && a.id == id && !q.pc.Finished? then Nearer(ToGo(q'), ToGo(q)) else ToGo(q') == ToGo(q)
  {
    hide Accounted, From, Accepted, Contents, Advance, Fits, FilterByIds;
    if a.Act? && a.id == id && !Sends(s.requests[id]) {
      if s.requests[id].pc.Finished? {
        FinishedStays(s.requests[id], s.wired, a.answer);
      } else {
        AdvanceNearer(s.requests[id], s.wired, a.answer);
      }
    }
  }

  lemma FinishedStays(q: Request, wired: bool, a: Answer)
    requires Fits(q) && q.pc.Finished?
    ensures Advance(q, wired, a) == q
  {
  }

  // ---- The same steps, undisturbed ----------------------------------------------------------

  /** A value's way through pipelines: what came out, what was recorded, which were applied, whether all let it pass. */
  datatype Passage<V> = Passage(value: V, entries: seq<Entry>, applied: Chain, ok: bool)

  datatype Effect<V> = Effect(value: V, entries: seq<Entry>, ok: bool)

  function Through<V>(act: (Pipeline, V) -> Effect<V>, todo: Chain, value: V): Passage<V> {
    if todo == [] then Passage(value, [], [], true)
    else
      var e := act(todo[0], value);
      if !e.ok then Passage(e.value, e.entries, [todo[0]], false)
      else
        var rest := Through(act, todo[1..], e.value);
        Passage(rest.value, e.entries + rest.entries, [todo[0]] + rest.applied, rest.ok)
  }

  /** It stops at the first refusal, and only there. */
  lemma {:induction false} ThroughStops<V>(act: (Pipeline, V) -> Effect<V>, todo: Chain, value: V)
    ensures
      var p := Through(act, todo, value);
      p.applied <= todo && (p.ok ==> p.applied == todo) && (!p.ok ==> p.applied != [])
  {
    if todo != [] && act(todo[0], value).ok {
      ThroughStops(act, todo[1..], act(todo[0], value).value);
    }
  }

  lemma ThroughOne<V>(act: (Pipeline, V) -> Effect<V>, p: Pipeline, value: V)
    ensures
      var e := act(p, value);
      Through(act, [p], value) == Passage(e.value, e.entries, [p], e.ok) && Through(act, [], value).value == value
  {
    assert [p][1..] == [];
    assert act(p, value).entries + [] == act(p, value).entries;
  }

  /** Going through two chains in a row is going through the second with what the first let pass. */
  lemma {:induction false} ThroughComposes<V>(act: (Pipeline, V) -> Effect<V>, a: Chain, b: Chain, value: V)
    ensures
      var p := Through(act, a, value);
      Through(act, a + b, value) ==
      if !p.ok then p
      else
        var q := Through(act, b, p.value);
        Passage(q.value, p.entries + q.entries, p.applied + q.applied, q.ok)
  {
    if a == [] {
      assert a + b == b;
    } else {
      assert (a + b)[1..] == a[1..] + b;
      var e := act(a[0], value);
      if e.ok {
        ThroughComposes(act, a[1..], b, e.value);
        var p := Through(act, a[1..], e.value);
        var q := Through(act, b, p.value);
        assert e.entries + (p.entries + q.entries) == (e.entries + p.entries) + q.entries;
        assert [a[0]] + (p.applied + q.applied) == ([a[0]] + p.applied) + q.applied;
      }
    }
  }

  class Context {
    var auditLog: seq<Entry>

    /** The request direction: forward, skipping what is for responses only, up to the first refusal. */
    method ApplyRequest<V>(act: (Pipeline, V) -> Effect<V>, chain: Chain, body: V) returns (body': V, ok: bool)
      modifies this
      ensures
        var p := Through(act, Forward(chain), body);
        body' == p.value && ok == p.ok && auditLog == old(auditLog) + p.entries
    {
      hide Through, Forward, Backward, Resumes, FilterByIds;
      body', ok := body, true;
      var i := 0;
      assert chain[0..] == chain;
      ghost var before: seq<Entry> := [];
      ResumesAtFirst(act, Forward(chain), body);
      while i < |chain|
        invariant 0 <= i <= |chain| && ok && auditLog == old(auditLog) + before
        invariant Resumes(act, Forward(chain), body, before, Forward(chain[i..]), body')
      {
        var p := chain[i];
        ForwardStep(chain, i);
        i := i + 1;
        if p.stage.ResponseStage? {
          continue;
        }
        var e := act(p, body');
        ResumesNext(act, Forward(chain), body, before, p, Forward(chain[i..]), body');
        Logged(old(auditLog), before, e.entries);
        auditLog := auditLog + e.entries;
        before := before + e.entries;
        body' := e.value;
        if !e.ok {
          ok := false;
          return;
        }
      }
      ForwardEnd(chain, i);
      NothingLeft(act, Forward(chain), body, before, body');
    }

    /** The response direction: backward, skipping what is for requests only, up to the first refusal. */
    method ApplyResponse<V>(act: (Pipeline, V) -> Effect<V>, chain: Chain, body: V) returns (body': V, ok: bool)
      modifies this
      ensures
        var p := Through(act, Backward(chain), body);
        body' == p.value && ok == p.ok && auditLog == old(auditLog) + p.entries
    {
      hide Through, Forward, Backward, Resumes, FilterByIds;
      body', ok := body, true;
      var i := |chain|;
      assert chain[..i] == chain;
      ghost var before: seq<Entry> := [];
      ResumesAtFirst(act, Backward(chain), body);
      while i > 0
        invariant 0 <= i <= |chain| && ok && auditLog == old(auditLog) + before
        invariant Resumes(act, Backward(chain), body, before, Backward(chain[..i]), body')
      {
        i := i - 1;
        var p := chain[i];
        BackwardStep(chain, i);
        if p.stage.RequestStage? {
          continue;
        }
        var e := act(p, body');
        ResumesNext(act, Backward(chain), body, before, p, Backward(chain[..i]), body');
        Logged(old(auditLog), before, e.entries);
        auditLog := auditLog + e.entries;
        before := before + e.entries;
        body' := e.value;
        if !e.ok {
          ok := false;
          return;
        }
      }
      ForwardEnd(chain, |chain|);
      NothingLeft(act, Backward(chain), body, before, body');
    }

    /** Takes the whole log and tries to send it; undisturbed, the first entries go in as long as there is room. */
    method DrainAudit(tx: AuditChannel?) returns (fates: seq<Fate>)
      modifies this, tx
      ensures auditLog == [] && Entries(fates) == old(auditLog)
      ensures tx == null ==> Accepted(fates) == []
      ensures tx != null ==>
                var room := if tx.open && |old(tx.queue)| < tx.cap then tx.cap - |old(tx.queue)| else 0;
                && tx.open == old(tx.open) && tx.queue == old(tx.queue) + Accepted(fates)
                && Accepted(fates) == old(auditLog)[..if room < |old(auditLog)| then room else |old(auditLog)|]
    {
      hide Accepted;
      var entries := auditLog;
      auditLog := [];
      if tx == null {
        DroppedEntries([], entries);
        NoFates();
        fates := AllDropped(entries);
        assert [] + fates == fates;
        return;
      }
      NoFates();
      fates := [];
      var i := 0;
      ghost var room: nat := if tx.open && |tx.queue| < tx.cap then tx.cap - |tx.queue| else 0;
      while i < |entries|
        invariant 0 <= i <= |entries| && auditLog == [] && tx.open == old(tx.open)
        invariant Entries(fates) == entries[..i] && tx.queue == old(tx.queue) + Accepted(fates)
        invariant Accepted(fates) == entries[..if room < i then room else i]
      {
        var ok := tx.TrySend(entries[i]);
        FateEntries(fates, Fate(entries[i], ok), [entries[i]]);
        fates := fates + [Fate(entries[i], ok)];
        i := i + 1;
      }
    }
  }

  class AuditChannel {
    const cap: nat
    var open: bool
    var queue: seq<Entry>

    /** Never waits. */
    method TrySend(entry: Entry) returns (ok: bool)
      modifies this
      ensures ok == (open && |old(queue)| < cap) && open == old(open)
      ensures queue == if ok then old(queue) + [entry] else old(queue)
    {
      ok := open && |queue| < cap;
      if ok {
        queue := queue + [entry];
      }
    }

    constructor (cap: nat)
      ensures this.cap == cap && open && queue == []
    {
      this.cap, open, queue := cap, true, [];
    }
  }

  /** Going through `all` is what was recorded before, and then going through `rest` with the present value. */
  ghost predicate Resumes<V>(act: (Pipeline, V) -> Effect<V>, all: Chain, start: V, before: seq<Entry>, rest: Chain,
                             now: V) {
    var p, q := Through(act, all, start), Through(act, rest, now);
    p.value == q.value && p.ok == q.ok && p.entries == before + q.entries
  }

  lemma Logged(a: seq<Entry>, b: seq<Entry>, c: seq<Entry>)
    ensures (a + b) + c == a + (b + c)
  {
  }

  lemma ForwardStep(chain: Chain, i: nat)
    requires i < |chain|
    ensures
      var rest := Forward(chain[i + 1..]);
      Forward(chain[i..]) == if chain[i].stage.ResponseStage? then rest else [chain[i]] + rest
  {
    assert chain[i..][0] == chain[i] && chain[i..][1..] == chain[i + 1..];
  }

  lemma BackwardStep(chain: Chain, i: nat)
    requires i < |chain|
    ensures
      var rest := Backward(chain[..i]);
      Backward(chain[..i + 1]) == if chain[i].stage.RequestStage? then rest else [chain[i]] + rest
  {
    assert chain[..i + 1][i] == chain[i] && chain[..i + 1][..i] == chain[..i];
  }

  lemma ForwardEnd(chain: Chain, i: nat)
    requires i == |chain|
    ensures Forward(chain[i..]) == [] && Backward(chain[..0]) == []
  {
  }

  lemma ResumesAtFirst<V>(act: (Pipeline, V) -> Effect<V>, all: Chain, start: V)
    ensures Resumes(act, all, start, [], all, start)
  {
    var p := Through(act, all, start);
    assert [] + p.entries == p.entries;
  }

  lemma ResumesNext<V>(act: (Pipeline, V) -> Effect<V>, all: Chain, start: V, before: seq<Entry>, p: Pipeline,
                       rest: Chain, now: V)
    requires Resumes(act, all, start, before, [p] + rest, now)
    ensures
      var e := act(p, now);
      if e.ok then Resumes(act, all, start, before + e.entries, rest, e.value)
      else
        var whole := Through(act, all, start);
        whole.value == e.value && !whole.ok && whole.entries == before + e.entries
  {
    assert ([p] + rest)[1..] == rest;
    var e := act(p, now);
    var more := Through(act, rest, e.value);
    assert before + (e.entries + more.entries) == (before + e.entries) + more.entries;
  }

  lemma NothingLeft<V>(act: (Pipeline, V) -> Effect<V>, all: Chain, start: V, before: seq<Entry>, now: V)
    requires Resumes(act, all, start, before, [], now)
    ensures
      var p := Through(act, all, start);
      p.value == now && p.ok && p.entries == before
  {
    assert before + [] == before;
  }

  lemma NoFates()
    ensures Accepted([]) == [] && Entries([]) == []
  {
  }
}
