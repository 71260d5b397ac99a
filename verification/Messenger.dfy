/** SendPropagatedWithRetry of pkg/lxmf/propagation_send.go. */
module Messenger {
  import opened Basics
  import opened Stamps
  import opened Message
  import opened MsgPack
  import opened LXMessages
  import opened Propagation

  /** How the transfer to one node went. */
  datatype Upload = LinkFailed | TransferFailed | Uploaded

  datatype SendResult = NoNode | PackError(error: PropagationResult) | AllFailed(last: Upload) | SentVia(node: Node)

  /** How many nodes may be tried. */
  function Budget(maxAttempts: int, candidates: nat): nat {
    var wanted := if maxAttempts < 1 then 1 else maxAttempts;
    if wanted > candidates then candidates else wanted
  }

  /** What a send is given: the world at each attempt, and the message as it was before the first. */
  datatype Sending = Sending(c: Crypto, world: nat -> Attempt, upload: nat -> Upload, d: Draft, was: bytes)

  predicate Fitting(d: Draft, a: Attempt) {
    |a.now| == 8 && Sendable(d, a.w) && Sendable(d, a.w')
  }

  ghost predicate Ready(s: Sending) {
    && (s.was == [] || |s.was| >= DESTINATION_LENGTH)
    && forall i: nat {:trigger Fitting(s.d, s.world(i))} :: Fitting(s.d, s.world(i))
  }

  ghost predicate AllSound(c: Crypto, fields: Option<map<byte, Field>>, d: Draft, world: nat -> Attempt) {
    forall i: nat {:trigger Sound(c, fields, d, world(i))} :: Sound(c, fields, d, world(i))
  }

  lemma SoundIsReady(s: Sending, fields: Option<map<byte, Field>>)
    requires AllSound(s.c, fields, s.d, s.world) && (s.was == [] || |s.was| >= DESTINATION_LENGTH)
    ensures Ready(s)
  {
    forall i: nat {:trigger Fitting(s.d, s.world(i))}
      ensures Fitting(s.d, s.world(i))
    {
      assert Sound(s.c, fields, s.d, s.world(i));
    }
  }

  /** The message and its packed bytes before attempt `i`: the first attempt packs, if it has to. */
  ghost function PackedBefore(s: Sending, i: nat): bytes
    requires Ready(s)
  {
    assert Fitting(s.d, s.world(0));
    if i == 0 then s.was else PackedAfter(s.c, s.world(0), s.d, s.was)
  }

  ghost function DraftBefore(s: Sending, i: nat): Draft
    requires Ready(s)
  {
    if i == 0 then s.d else DraftAfter(s.world(0), s.d, s.was)
  }

  /** What packing for attempt `i` comes to, when the attempts before it went as far as the transfer. */
  ghost function OutcomeAt(s: Sending, cost: int, i: nat): PropagationResult
    requires Ready(s)
  {
    ReadyAt(s, i);
    AttemptOutcome(s.c, s.world(i), cost, DraftBefore(s, i), PackedBefore(s, i))
  }

  lemma ReadyAt(s: Sending, i: nat)
    requires Ready(s)
    ensures Sendable(DraftBefore(s, i), s.world(i).w) && Sendable(DraftBefore(s, i), s.world(i).w')
    ensures |s.world(i).now| == 8
    ensures PackedBefore(s, i) == [] || |PackedBefore(s, i)| >= DESTINATION_LENGTH
  {
    assert Fitting(s.d, s.world(i)) && Fitting(s.d, s.world(0));
  }

  /** What packing comes to at each node of the listing. */
  ghost function Outcomes(s: Sending, full: seq<Node>): nat -> PropagationResult
    requires Ready(s)
  {
    (i: nat) => if i < |full| then OutcomeAt(s, full[i].stampCost, i) else NotPacked
  }

  /** Attempt `i` packed and was not taken by its node. */
  predicate FailsAt(outcome: nat -> PropagationResult, upload: nat -> Upload, i: nat) {
    outcome(i) == Propagated && upload(i) != Uploaded
  }

  predicate AllFail(outcome: nat -> PropagationResult, upload: nat -> Upload, n: nat) {
    forall i | 0 <= i < n :: FailsAt(outcome, upload, i)
  }

  lemma OneMoreFails(outcome: nat -> PropagationResult, upload: nat -> Upload, n: nat)
    requires AllFail(outcome, upload, n) && FailsAt(outcome, upload, n)
    ensures AllFail(outcome, upload, n + 1)
  {}

  /**
   The nodes tried and the result: every attempt but the last packed and failed; the last one is the
   first that did not pack, the first that was taken, or the end of the budget.
   */
  predicate Tries(outcome: nat -> PropagationResult, upload: nat -> Upload, full: seq<Node>, tried: seq<Node>,
                  maxAttempts: int, r: SendResult)
  {
    var n := |tried|;
    && tried <= full && n <= Budget(maxAttempts, |full|) && (n > 0 ==> AllFail(outcome, upload, n - 1))
    && match r
       case NoNode => full == []
       case AllFailed(e) =>
         n > 0 && n == Budget(maxAttempts, |full|) && FailsAt(outcome, upload, n - 1) && e == upload(n - 1)
       case PackError(e) => n > 0 && e == outcome(n - 1) != Propagated
       case SentVia(node) => n > 0 && node == full[n - 1] && upload(n - 1) == Uploaded && outcome(n - 1) == Propagated
  }

  lemma EndsSent(outcome: nat -> PropagationResult, upload: nat -> Upload, full: seq<Node>, n: nat, maxAttempts: int)
    requires n < Budget(maxAttempts, |full|) && AllFail(outcome, upload, n)
    requires outcome(n) == Propagated && upload(n) == Uploaded
    ensures Tries(outcome, upload, full, full[..n + 1], maxAttempts, SentVia(full[n]))
  {}

  lemma EndsUnpacked(outcome: nat -> PropagationResult, upload: nat -> Upload, full: seq<Node>, n: nat,
                     maxAttempts: int)
    requires n < Budget(maxAttempts, |full|) && AllFail(outcome, upload, n) && outcome(n) != Propagated
    ensures Tries(outcome, upload, full, full[..n + 1], maxAttempts, PackError(outcome(n)))
  {}

  lemma EndsExhausted(outcome: nat -> PropagationResult, upload: nat -> Upload, full: seq<Node>, maxAttempts: int)
    requires full != [] && AllFail(outcome, upload, Budget(maxAttempts, |full|))
    ensures var n := Budget(maxAttempts, |full|);
            Tries(outcome, upload, full, full[..n], maxAttempts, AllFailed(upload(n - 1)))
  {}

  lemma NotLonger(outcome: nat -> PropagationResult, upload: nat -> Upload, full: seq<Node>, maxAttempts: int,
                  tried: seq<Node>, r: SendResult, tried': seq<Node>, r': SendResult)
    requires Tries(outcome, upload, full, tried, maxAttempts, r)
    requires Tries(outcome, upload, full, tried', maxAttempts, r')
    ensures |tried'| <= |tried|
  {
    var lastFailed := tried != [] && FailsAt(outcome, upload, |tried| - 1);
  }

  /** The description leaves nothing open: it determines the nodes tried and the result. */
  lemma TriesIsDetermined(outcome: nat -> PropagationResult, upload: nat -> Upload, full: seq<Node>, maxAttempts: int,
                          tried: seq<Node>, r: SendResult, tried': seq<Node>, r': SendResult)
    requires Tries(outcome, upload, full, tried, maxAttempts, r)
    requires Tries(outcome, upload, full, tried', maxAttempts, r')
    ensures tried == tried' && r == r'
  {
    NotLonger(outcome, upload, full, maxAttempts, tried, r, tried', r');
    NotLonger(outcome, upload, full, maxAttempts, tried', r', tried, r);
    assert tried == full[..|tried|] && tried' == full[..|tried'|];
  }

  /** In numbers: at most `maxAttempts` nodes are tried, but always one, and all of these before giving up. */
  lemma AttemptsAreCounted(outcome: nat -> PropagationResult, upload: nat -> Upload, full: seq<Node>, maxAttempts: int,
                           tried: seq<Node>, r: SendResult)
    requires Tries(outcome, upload, full, tried, maxAttempts, r)
    ensures |tried| <= |full| && (|tried| <= 1 || |tried| <= maxAttempts)
    ensures r.AllFailed? ==> |tried| == |full| || |tried| == (if maxAttempts < 1 then 1 else maxAttempts)
    ensures r.NoNode? <==> full == []
  {}

  /** The message is sent exactly when a node that may be tried takes it and every node before that one failed. */
  lemma SentIff(outcome: nat -> PropagationResult, upload: nat -> Upload, full: seq<Node>, maxAttempts: int,
                tried: seq<Node>, r: SendResult)
    requires Tries(outcome, upload, full, tried, maxAttempts, r)
    ensures r.SentVia? <==>
              exists n | 0 <= n < |full| && (n == 0 || n < maxAttempts) ::
                AllFail(outcome, upload, n) && outcome(n) == Propagated && upload(n) == Uploaded
  {
    if n :| 0 <= n < |full| && (n == 0 || n < maxAttempts)
            && AllFail(outcome, upload, n) && outcome(n) == Propagated && upload(n) == Uploaded
    {
      EndsSent(outcome, upload, full, n, maxAttempts);
      TriesIsDetermined(outcome, upload, full, maxAttempts, tried, r, full[..n + 1], SentVia(full[n]));
    }
    if r.SentVia? {
      var n := |tried| - 1;
      assert AllFail(outcome, upload, n);
    }
  }

  /** What was uploaded is an entry that the node accepts exactly up to cost 256 and above the minimal size. */
  ghost predicate Acceptable(c: Crypto, a: Attempt, cost: int, packed: bytes, stamp: bytes, id: bytes, upload: bytes) {
    && Carries(c, a, cost, packed, stamp, id, upload)
    && var inner := Inner(packed, a.encrypt(packed[DESTINATION_LENGTH..]).value);
       && |inner + stamp| < UINT32_LIMIT && upload == Outer(a.now, inner + stamp)
       && (cost <= 256 && |inner| > OVERHEAD <==> ValidatePNStamp(c, inner + stamp, cost).PNAccepted?)
  }

  lemma CarriedIsAcceptable(c: Crypto, a: Attempt, cost: int, packed: bytes, stamp: bytes, id: bytes, upload: bytes)
    requires cost >= 1 && Carries(c, a, cost, packed, stamp, id, upload)
    ensures Acceptable(c, a, cost, packed, stamp, id, upload)
  {
    var inner := Inner(packed, a.encrypt(packed[DESTINATION_LENGTH..]).value);
    if cost <= 256 {
      StampedEntryIsAcceptedIff(c, inner, stamp, cost);
    }
  }

  /** The message left through a node of that cost. */
  ghost predicate Delivered(c: Crypto, a: Attempt, cost: int, msg: LXMessage)
    reads msg
  {
    && msg.propagated && msg.representation == FormOf(msg.propagationPacked)
    && Acceptable(c, a, cost, msg.packed, msg.propagationStamp, msg.transientId, msg.propagationPacked)
  }

  /** One turn of the loop. */
  method TryNode(c: Crypto, msg: LXMessage, a: Attempt, up: Upload, cost: int)
    returns (p: PropagationResult, sent: bool)
    requires msg.Valid() && Sound(c, msg.fields, msg.View(), a) && cost >= 1
    modifies msg`timestamp, msg`hash, msg`signature, msg`signatureValidated, msg`packed, msg`transientId
    modifies msg`propagationStamp, msg`propagationPacked, msg`propagated, msg`representation, msg`state
    ensures msg.Valid() && p == AttemptOutcome(c, a, cost, old(msg.View()), old(msg.packed))
    ensures msg.packed == PackedAfter(c, a, old(msg.View()), old(msg.packed))
    ensures msg.View() == DraftAfter(a, old(msg.View()), old(msg.packed))
    ensures sent <==> p.Propagated? && up.Uploaded?
    ensures msg.state == if sent then Sent else old(msg.state)
    ensures p.Propagated? ==> msg.packed != [] && Delivered(c, a, cost, msg)
  {
    p := msg.PackForPropagation(c, a, cost);
    sent := p.Propagated? && up.Uploaded?;
    if p.Propagated? {
      CarriedIsAcceptable(c, a, cost, msg.packed, msg.propagationStamp, msg.transientId, msg.propagationPacked);
    }
    if sent {
      MarkSent(msg);
    }
  }

  /** The fields set behind a transfer. */
  method MarkSent(msg: LXMessage)
    modifies msg`propagated, msg`representation, msg`state
    ensures msg.propagated && msg.state == Sent
    ensures msg.representation == if |msg.propagationPacked| > 319 then Resource else Packet
  {
    msg.propagated, msg.representation := true, Packet;
    if |msg.propagationPacked| > LINK_PACKET_MAX_CONTENT {
      msg.representation := Resource;
    }
    msg.state := Sent;
  }

  /** What an attempt on a message in the state before attempt `i` leaves for the next one. */
  lemma NextAttempt(s: Sending, i: nat)
    requires Ready(s) && (i > 0 ==> PackedBefore(s, i) != [])
    ensures Sendable(DraftBefore(s, i), s.world(i).w) && Sendable(DraftBefore(s, i), s.world(i).w')
    ensures |s.world(i).now| == 8
    ensures PackedAfter(s.c, s.world(i), DraftBefore(s, i), PackedBefore(s, i)) == PackedBefore(s, i + 1)
    ensures DraftAfter(s.world(i), DraftBefore(s, i), PackedBefore(s, i)) == DraftBefore(s, i + 1)
  {
    ReadyAt(s, i);
  }

  /** Attempts change at most the time of the message. */
  lemma SameButTime(s: Sending, i: nat)
    requires Ready(s)
    ensures DraftBefore(s, i) == s.d.(timestamp := DraftBefore(s, i).timestamp)
  {}

  /** The message is as it is before attempt `i`. */
  ghost predicate InState(s: Sending, i: nat, msg: LXMessage)
    requires Ready(s)
    reads msg
  {
    msg.Valid() && msg.View() == DraftBefore(s, i) && msg.packed == PackedBefore(s, i) && (i > 1 ==> msg.packed != [])
  }

  /** Attempt `i` of the loop. */
  method TryAt(ghost s: Sending, ghost i: nat, c: Crypto, msg: LXMessage, a: Attempt, up: Upload, node: Node)
    returns (p: PropagationResult, sent: bool)
    requires Ready(s) && s.c == c && s.world(i) == a && node.stampCost >= 1
    requires AllSound(c, msg.fields, s.d, s.world)
    requires InState(s, i, msg) && (i > 0 ==> msg.packed != [])
    modifies msg`timestamp, msg`hash, msg`signature, msg`signatureValidated, msg`packed, msg`transientId
    modifies msg`propagationStamp, msg`propagationPacked, msg`propagated, msg`representation, msg`state
    ensures InState(s, i + 1, msg) && (p.Propagated? ==> msg.packed != [])
    ensures p == OutcomeAt(s, node.stampCost, i)
    ensures sent <==> p.Propagated? && up.Uploaded?
    ensures msg.state == if sent then Sent else old(msg.state)
    ensures sent ==> Delivered(s.c, a, node.stampCost, msg)
  {
    assert Sound(c, msg.fields, s.d, s.world(i));
    SoundAtAnyTime(c, msg.fields, s.d, msg.timestamp, a);
    SameButTime(s, i);
    NextAttempt(s, i);
    p, sent := TryNode(c, msg, a, up, node.stampCost);
  }

  /** Turn `i` of the loop over the candidates: the result, or none where the loop goes on. */
  method TurnAt(ghost s: Sending, i: nat, c: Crypto, msg: LXMessage, candidates: seq<Node>, a: Attempt, up: Upload,
                ghost maxAttempts: int)
    returns (r: Option<SendResult>)
    requires Ready(s) && s.c == c && s.world(i) == a && s.upload(i) == up && AllSound(c, msg.fields, s.d, s.world)
    requires i < Budget(maxAttempts, |candidates|) && candidates[i].stampCost >= 1
    requires AllFail(Outcomes(s, candidates), s.upload, i)
    requires InState(s, i, msg) && (i > 0 ==> msg.packed != [])
    modifies msg`timestamp, msg`hash, msg`signature, msg`signatureValidated, msg`packed, msg`transientId
    modifies msg`propagationStamp, msg`propagationPacked, msg`propagated, msg`representation, msg`state
    ensures InState(s, i + 1, msg) && (r.None? ==> msg.packed != [])
    ensures r.None? <==> FailsAt(Outcomes(s, candidates), s.upload, i)
    ensures r.None? ==> AllFail(Outcomes(s, candidates), s.upload, i + 1)
    ensures r.Some? ==> Tries(Outcomes(s, candidates), s.upload, candidates, candidates[..i + 1], maxAttempts, r.value)
    ensures msg.state == if r.Some? && r.value.SentVia? then Sent else old(msg.state)
    ensures r.Some? && r.value.SentVia? ==> Delivered(c, a, r.value.node.stampCost, msg)
  {
    ghost var outcome := Outcomes(s, candidates);
    var p, sent := TryAt(s, i, c, msg, a, up, candidates[i]);
    assert p == outcome(i);
    if p != Propagated {
      EndsUnpacked(outcome, s.upload, candidates, i, maxAttempts);
      return Some(PackError(p));
    }
    if sent {
      EndsSent(outcome, s.upload, candidates, i, maxAttempts);
      return Some(SentVia(candidates[i]));
    }
    OneMoreFails(outcome, s.upload, i);
    return None;
  }

  /** The retry loop over the candidates; `s` is what it starts from. */
  method TryNodes(ghost s: Sending, c: Crypto, msg: LXMessage, candidates: seq<Node>, world: nat -> Attempt,
                  upload: nat -> Upload, maxAttempts: int)
    returns (r: SendResult, tried: seq<Node>)
    requires s == Sending(c, world, upload, msg.View(), msg.packed) && Ready(s) && msg.Valid()
    requires candidates != [] && forall n | n in candidates :: n.stampCost >= 1
    requires AllSound(c, msg.fields, s.d, world)
    modifies msg`timestamp, msg`hash, msg`signature, msg`signatureValidated, msg`packed, msg`transientId
    modifies msg`propagationStamp, msg`propagationPacked, msg`propagated, msg`representation, msg`state
    ensures Tries(Outcomes(s, candidates), upload, candidates, tried, maxAttempts, r)
    ensures tried != [] && InState(s, |tried|, msg)
    ensures msg.state == if r.SentVia? then Sent else old(msg.state)
    ensures r.SentVia? ==> Delivered(c, world(|tried| - 1), r.node.stampCost, msg)
  {
    var attempts := if maxAttempts < 1 then 1 else maxAttempts;
    if attempts > |candidates| {
      attempts := |candidates|;
    }
    ghost var outcome := Outcomes(s, candidates);
    var last := LinkFailed;
    for attempt := 0 to attempts
      invariant AllFail(outcome, upload, attempt) && (attempt > 0 ==> last == upload(attempt - 1))
      invariant InState(s, attempt, msg) && (attempt > 0 ==> msg.packed != [])
      invariant msg.state == old(msg.state)
    {
      var ended := TurnAt(s, attempt, c, msg, candidates, world(attempt), upload(attempt), maxAttempts);
      if ended.Some? {
        return ended.value, candidates[..attempt + 1];
      }
      last := upload(attempt);
    }
    EndsExhausted(outcome, upload, candidates, maxAttempts);
    return AllFailed(last), candidates[..attempts];
  }

  /** The single attempt that is made without a registry, at the minimal cost. */
  ghost predicate TriesOnce(s: Sending, tried: seq<Node>, preferred: bytes, r: SendResult)
    requires Ready(s)
  {
    var p := OutcomeAt(s, STAMP_COST_MIN, 0);
    && tried == [Node(preferred, [], 0, 0)]
    && r == if p != Propagated then PackError(p)
            else if s.upload(0) == Uploaded then SentVia(tried[0])
            else AllFailed(s.upload(0))
  }

  /** `s` is what the send starts from. */
  method SendPropagatedWithRetry(ghost s: Sending, c: Crypto, msg: LXMessage, registry: PropagationRegistry?,
                                 world: nat -> Attempt, upload: nat -> Upload, hasPath: bytes -> bool,
                                 preferred: bytes, maxAttempts: int)
    returns (r: SendResult, tried: seq<Node>)
    requires s == Sending(c, world, upload, msg.View(), msg.packed) && Ready(s)
    requires msg.Valid() && (registry != null ==> registry.Valid())
    requires AllSound(c, msg.fields, s.d, world)
    modifies msg`timestamp, msg`hash, msg`signature, msg`signatureValidated, msg`packed, msg`transientId
    modifies msg`propagationStamp, msg`propagationPacked, msg`propagated, msg`representation, msg`state
    ensures registry == null ==> TriesOnce(s, tried, preferred, r)
    ensures registry != null ==>
              exists full ::
                && IsListing(full, registry.nodes, hasPath, preferred, {})
                && Tries(Outcomes(s, full), upload, full, tried, maxAttempts, r)
    ensures InState(s, |tried|, msg)
    ensures msg.state == if r.SentVia? then Sent else old(msg.state)
    ensures r.SentVia? && tried != [] ==>
              Delivered(c, world(|tried| - 1), if registry == null then STAMP_COST_MIN else r.node.stampCost, msg)
  {
    if registry == null {
      r, tried := SendOnce(s, c, msg, world(0), upload(0), preferred);
      return;
    }
    var candidates := registry.AttemptOrder(hasPath, preferred, {}, 0);
    if candidates == [] {
      assert Tries(Outcomes(s, candidates), upload, candidates, [], maxAttempts, NoNode);
      return NoNode, [];
    }
    CostsArePositive(registry.nodes, hasPath, preferred, candidates);
    r, tried := TryNodes(s, c, msg, candidates, world, upload, maxAttempts);
  }

  /** SendPropagated at the minimal cost, and the node record made for its result. */
  method SendOnce(ghost s: Sending, c: Crypto, msg: LXMessage, a: Attempt, up: Upload, nodeHash: bytes)
    returns (r: SendResult, tried: seq<Node>)
    requires Ready(s) && s.c == c && s.world(0) == a && s.upload(0) == up && InState(s, 0, msg)
    requires AllSound(c, msg.fields, s.d, s.world)
    modifies msg`timestamp, msg`hash, msg`signature, msg`signatureValidated, msg`packed, msg`transientId
    modifies msg`propagationStamp, msg`propagationPacked, msg`propagated, msg`representation, msg`state
    ensures TriesOnce(s, tried, nodeHash, r) && InState(s, 1, msg)
    ensures msg.state == if r.SentVia? then Sent else old(msg.state)
    ensures r.SentVia? ==> Delivered(c, a, STAMP_COST_MIN, msg)
  {
    tried := [Node(nodeHash, [], 0, 0)];
    var p, sent := TryAt(s, 0, c, msg, a, up, Node(nodeHash, [], STAMP_COST_MIN, 0));
    r := if p != Propagated then PackError(p) else if sent then SentVia(tried[0]) else AllFailed(up);
  }

  lemma CostsArePositive(nodes: Nodes, hasPath: bytes -> bool, preferred: bytes, full: seq<Node>)
    requires Filed(nodes) && IsListing(full, nodes, hasPath, preferred, {})
    ensures forall n | n in full :: n.stampCost >= 1
  {}
}
