/**
 * The QLab link: a single-flight FIFO of OSC commands sent over UDP to QLab (port 53000)
 * and the connection bookkeeping around it (src/server/qlab.ts).
 *
 * One command is in flight at a time; the next is sent only when QLab answers the one in
 * flight with `/reply/<its address>` carrying JSON whose `status` is `"ok"`. A fresh run
 * always starts with `/alwaysReply`. A 2-second timeout, a send error or a missing socket
 * empties the queue and marks QLab disconnected. Sockets, timers and callbacks are events:
 * the reconcile tick, the bind callback, a datagram, the reply timeout, the connection
 * timeout, a send error and a socket error.
 */
module QLab {
  import opened Wrappers
  import opened JsValue
  import Osc
  import OscProperties
  import Bytes

  /** The command QLab always answers; it opens every fresh run of the queue. */
  const AlwaysReply: Osc.Message := Osc.Message(["alwaysReply"], [])

  /** `getQLabCues`: asks for the cue lists. */
  const CueListsRequest: Osc.Message := Osc.Message(["cueLists", "cues"], [])

  /** The command that starts the cue with this unique id. */
  function FireMessage(id: string): Osc.Message
  {
    Osc.Message(["cue_id", id, "start"], [])
  }

  /** `cueIDs.map(...)` in `fireQLabCues`. */
  function FireMessages(ids: seq<string>): (r: seq<Osc.Message>)
    ensures |r| == |ids|
  {
    if ids == [] then [] else [FireMessage(ids[0])] + FireMessages(ids[1..])
  }

  lemma {:induction false} FireMessagesAt(ids: seq<string>, i: nat)
    requires i < |ids|
    ensures FireMessages(ids)[i] == Osc.Message(["cue_id", ids[i], "start"], [])
  {
    if i > 0 {
      FireMessagesAt(ids[1..], i - 1);
    }
  }

  /** `qlabAddress` used as a condition: null and the empty string are falsy. */
  predicate TruthyAddress(a: Option<string>) { a.Some? && a.value != "" }

  // ---------------------------------------------------------------------------
  // Replies

  /** `msg.address` is `reply` followed by exactly the segments of `head`'s address. */
  predicate IsReplyTo(msg: Osc.Message, head: Osc.Message) {
    |msg.address| >= 1 && msg.address[0] == "reply" && msg.address[1..] == head.address
  }

  /** The first argument is a string holding JSON for an object whose `status` is `'ok'`. */
  predicate ReplyOk(msg: Osc.Message, parse: string -> Option<Value>) {
    |msg.arguments| >= 1 && msg.arguments[0].Str?
    && match parse(msg.arguments[0].text)
       case None => false
       case Some(obj) => TypeOf(obj) == "object" && !obj.Null? && Has(obj, "status") && Get(obj, "status") == Str("ok")
  }

  /** Compares two address lists element by element, as the reply listener does. */
  method SameSegments(a: seq<string>, b: seq<string>) returns (same: bool)
    ensures same <==> a == b
  {
    if |a| != |b| {
      return false;
    }
    var i := 0;
    while i < |a|
      invariant 0 <= i <= |a|
      invariant a[..i] == b[..i]
    {
      if a[i] != b[i] {
        return false;
      }
      assert a[..i + 1] == a[..i] + [a[i]];
      assert b[..i + 1] == b[..i] + [b[i]];
      i := i + 1;
    }
    assert a == a[..i] && b == b[..i];
    return true;
  }

  // ---------------------------------------------------------------------------
  // Cue lists

  /** `isQLabCueArray`: an array every element of which is a cue. */
  predicate IsQLabCueArray(v: Value)
    decreases v, 2
  {
    v.Arr? && AllCues(v, 0)
  }

  predicate AllCues(v: Value, i: nat)
    requires v.Arr?
    decreases v, 1, |v.items| - i
  {
    i >= |v.items| || (IsQLabCue(v.items[i]) && AllCues(v, i + 1))
  }

  /** `isQLabCue`: string `listName`, `uniqueID` and `type`, and a `cues` array of cues. */
  predicate IsQLabCue(v: Value)
    decreases v, 2
  {
    TypeOf(v) == "object" && !v.Null?
    && Has(v, "listName") && TypeOf(Get(v, "listName")) == "string"
    && Has(v, "uniqueID") && TypeOf(Get(v, "uniqueID")) == "string"
    && Has(v, "type") && TypeOf(Get(v, "type")) == "string"
    && Has(v, "cues") && v.Obj? && CuesFrom(v, 0)
  }

  /** `isQLabCueArray(obj.cues)`, found by scanning the properties for the first `cues`. */
  predicate CuesFrom(v: Value, i: nat)
    requires v.Obj?
    decreases v, 1, |v.props| - i
  {
    i < |v.props| && (if v.props[i].0 == "cues" then IsQLabCueArray(v.props[i].1) else CuesFrom(v, i + 1))
  }

  lemma {:induction false} CuesFromLookup(v: Value, i: nat)
    requires v.Obj? && i <= |v.props|
    ensures CuesFrom(v, i) <==> IsQLabCueArray(Lookup(v.props[i..], "cues"))
    decreases |v.props| - i
  {
    if i < |v.props| {
      assert v.props[i..][1..] == v.props[i + 1..];
      CuesFromLookup(v, i + 1);
    }
  }

  lemma {:induction false} AllCuesIff(v: Value, i: nat)
    requires v.Arr? && i <= |v.items|
    ensures AllCues(v, i) <==> forall j :: i <= j < |v.items| ==> IsQLabCue(v.items[j])
    decreases |v.items| - i
  {
    if i < |v.items| {
      AllCuesIff(v, i + 1);
    }
  }

  /**
   * A cue is an object (never an array, which has none of these names) whose `listName`,
   * `uniqueID` and `type` are strings and whose `cues` is an array of cues.
   */
  lemma CueShape(v: Value)
    ensures IsQLabCue(v) <==>
      v.Obj? && Lookup(v.props, "listName").Str? && Lookup(v.props, "uniqueID").Str?
      && Lookup(v.props, "type").Str? && IsQLabCueArray(Lookup(v.props, "cues"))
  {
    if v.Obj? {
      assert v.props[0..] == v.props;
      CuesFromLookup(v, 0);
    }
  }

  /** A cue array is exactly an array all of whose elements are cues. */
  lemma CueArrayShape(v: Value)
    ensures IsQLabCueArray(v) <==> v.Arr? && forall j :: 0 <= j < |v.items| ==> IsQLabCue(v.items[j])
  {
    if v.Arr? {
      AllCuesIff(v, 0);
    }
  }

  /** What the cue-list handler makes of a datagram. */
  datatype CueReply =
    | NotCueLists          // the address is not reply/cueLists/cues
    | CueLists(cues: Value) // published to the browsers as `qlab-cues`
    | Unusable             // no string argument, no JSON, or no valid `data`: only logged
    | Throws               // no argument at all: reading `cues.type` throws

  /** The socket's own `message` handler, apart from `setConnected(true)`. */
  function CueListReply(msg: Osc.Message, parse: string -> Option<Value>): CueReply
  {
    if !(|msg.address| >= 3 && msg.address[0] == "reply" && msg.address[1] == "cueLists" && msg.address[2] == "cues") then NotCueLists
    else if msg.arguments == [] then Throws
    else if !msg.arguments[0].Str? then Unusable
    else match parse(msg.arguments[0].text)
      case None => Unusable
      case Some(reply) =>
        if TypeOf(reply) == "object" && !reply.Null? && Has(reply, "data") && IsQLabCueArray(Get(reply, "data"))
        then CueLists(Get(reply, "data"))
        else Unusable
  }

  /**
   * The handler publishes exactly the `data` of the JSON object QLab sent in the first
   * argument of a `reply/cueLists/cues` message, and only when that data is a cue array.
   */
  lemma CueListReplyExact(msg: Osc.Message, parse: string -> Option<Value>, cues: Value)
    ensures CueListReply(msg, parse) == CueLists(cues) <==>
      |msg.address| >= 3 && msg.address[..3] == ["reply", "cueLists", "cues"]
      && |msg.arguments| >= 1 && msg.arguments[0].Str?
      && parse(msg.arguments[0].text).Some? && parse(msg.arguments[0].text).value.Obj?
      && HasKey(parse(msg.arguments[0].text).value.props, "data")
      && cues == Lookup(parse(msg.arguments[0].text).value.props, "data")
      && IsQLabCueArray(cues)
  {
    if |msg.address| >= 3 && msg.address[..3] == ["reply", "cueLists", "cues"] {
      assert msg.address[0] == "reply" && msg.address[1] == "cueLists" && msg.address[2] == "cues";
    }
    if CueListReply(msg, parse).CueLists? {
      assert msg.address[..3] == ["reply", "cueLists", "cues"];
      var reply := parse(msg.arguments[0].text).value;
      assert !reply.Arr? by {
        if reply.Arr? {
          NamedKey("data", |reply.items|);
        }
      }
    }
  }

  /**
   * A cue-list reply as QLab puts it on the wire: the datagram decodes, and the handler
   * publishes the `data` of the JSON object it carries.
   */
  lemma CueListDatagram(m: Osc.Message, json: string, parse: string -> Option<Value>)
    requires m.address == ["reply", "cueLists", "cues"] && m.arguments == [Osc.Str(json)]
    requires OscProperties.PlainString(json)
    requires parse(json).Some? && parse(json).value.Obj?
    requires IsQLabCueArray(Lookup(parse(json).value.props, "data"))
    ensures Osc.Encode(m).Ok? && Osc.Decode(Osc.Encode(m).value).Ok?
    ensures CueListReply(Osc.Decode(Osc.Encode(m).value).value.message, parse)
      == CueLists(Lookup(parse(json).value.props, "data"))
  {
    var data := Lookup(parse(json).value.props, "data");
    assert OscProperties.ValidMessage(m) by {
      CueListAddressValid();
      assert m.arguments[1..] == [];
    }
    assert Osc.Encode(m).Ok? && Osc.Decode(Osc.Encode(m).value).Ok?
      && Osc.Decode(Osc.Encode(m).value).value.message == m by {
      OscProperties.DecodeEncode(m);
    }
    CueListHandled(m, json, parse);
  }

  lemma CueListHandled(m: Osc.Message, json: string, parse: string -> Option<Value>)
    requires m.address == ["reply", "cueLists", "cues"] && m.arguments == [Osc.Str(json)]
    requires parse(json).Some? && parse(json).value.Obj?
    requires IsQLabCueArray(Lookup(parse(json).value.props, "data"))
    ensures CueListReply(m, parse) == CueLists(Lookup(parse(json).value.props, "data"))
  {
    assert HasKey(parse(json).value.props, "data");
    assert m.address[..3] == ["reply", "cueLists", "cues"];
    CueListReplyExact(m, parse, Lookup(parse(json).value.props, "data"));
  }

  lemma CueListAddressValid()
    ensures OscProperties.ValidAddress(["reply", "cueLists", "cues"])
  {
    assert OscProperties.PlainString("reply") by {
      assert OscProperties.PlainString("reply"[4..]);
      assert OscProperties.PlainString("reply"[3..]);
      assert OscProperties.PlainString("reply"[2..]);
      assert OscProperties.PlainString("reply"[1..]);
    }
    assert OscProperties.PlainString("cueLists") by {
      assert OscProperties.PlainString("cueLists"[7..]);
      assert OscProperties.PlainString("cueLists"[6..]);
      assert OscProperties.PlainString("cueLists"[5..]);
      assert OscProperties.PlainString("cueLists"[4..]);
      assert OscProperties.PlainString("cueLists"[3..]);
      assert OscProperties.PlainString("cueLists"[2..]);
      assert OscProperties.PlainString("cueLists"[1..]);
    }
    assert OscProperties.PlainString("cues") by {
      assert OscProperties.PlainString("cues"[3..]);
      assert OscProperties.PlainString("cues"[2..]);
      assert OscProperties.PlainString("cues"[1..]);
    }
  }

  // ---------------------------------------------------------------------------
  // The link

  class Link {
    /** `qlabQueueTheOtherQSoundingThing`: commands waiting to be sent. */
    var queue: seq<Osc.Message>
    /** A run of the queue is active. */
    var inQueue: bool
    /** `qlabConnected`. */
    var connected: bool
    /** `qlabSocket !== null`. */
    var hasSocket: bool
    /** `qlabAddress`, the address the current socket sends to. */
    var address: Option<string>
    /** The command in flight whose 2-second reply timeout is armed. */
    var awaiting: Option<Osc.Message>
    /** The reply listener for `awaiting` is attached to the current socket. */
    var listening: bool
    /** The `services-connected` messages published, oldest first. */
    var published: seq<bool>

    ghost predicate Valid()
      reads this
    {
      (!inQueue ==> queue == [] && awaiting.None?)
      && (listening ==> awaiting.Some? && hasSocket)
    }

    constructor ()
      ensures Valid()
      ensures queue == [] && !inQueue && !connected && !hasSocket && address.None?
      ensures awaiting.None? && !listening && published == []
    {
      queue := [];
      inQueue := false;
      connected := false;
      hasSocket := false;
      address := None;
      awaiting := None;
      listening := false;
      published := [];
    }

    /**
     * The effect of `setConnected(c)`: nothing when the state is unchanged; otherwise one
     * event is published and, going down, the socket is closed.
     */
    twostate predicate ConnectionSet(c: bool)
      reads this
    {
      connected == c
      && published == old(published) + (if old(connected) == c then [] else [c])
      && hasSocket == (if old(connected) != c && !c then false else old(hasSocket))
      && listening == (if old(connected) != c && !c then false else old(listening))
    }

    /** What `setConnected(true)` leaves behind when a datagram arrives on the socket. */
    twostate predicate MarkedUp()
      reads this
    {
      connected && hasSocket
      && published == old(published) + (if old(connected) then [] else [true])
    }

    /**
     * The queue emptied, the run ended and the link marked down, from a state that was
     * connected `wasConnected`, had a socket `hadSocket`, had published `wasPublished`
     * and was bound to `wasAddress`.
     */
    predicate Flushed(wasConnected: bool, hadSocket: bool, wasPublished: seq<bool>, wasAddress: Option<string>)
      reads this
    {
      queue == [] && !inQueue && awaiting.None? && address == wasAddress
      && connected == false
      && published == wasPublished + (if wasConnected then [false] else [])
      && hasSocket == (if wasConnected then false else hadSocket)
      && !listening
    }

    method SetConnected(c: bool)
      requires Valid()
      modifies this
      ensures Valid() && ConnectionSet(c)
      ensures queue == old(queue) && inQueue == old(inQueue) && address == old(address) && awaiting == old(awaiting)
    {
      if c == connected {
        return;
      }
      published := published + [c];
      connected := c;
      if !c && hasSocket {
        hasSocket := false;
        listening := false;
      }
    }

    /** Timeout, send error and missing socket all end the run the same way. */
    method Flush()
      modifies this
      ensures Flushed(old(connected), old(hasSocket), old(published), old(address)) && Valid()
    {
      inQueue := false;
      queue := [];
      awaiting := None;
      listening := false;
      SetConnected(false);
    }

    /**
     * `sendNextQLabMessage`: takes the head off the queue and sends it, arming its reply
     * timeout. An empty queue ends the run. Without a socket or an address the run is
     * flushed. A head that cannot be encoded throws after it was removed, leaving the run
     * active with nothing in flight.
     */
    method SendNext() returns (datagram: Option<seq<Bytes.byte>>)
      requires awaiting.None? && !listening
      modifies this
      ensures Valid()
      ensures old(queue) == [] ==>
        !inQueue && queue == [] && awaiting.None? && datagram.None? && !listening
        && connected == old(connected) && hasSocket == old(hasSocket) && address == old(address)
        && published == old(published)
      ensures old(queue) != [] && Osc.Encode(old(queue)[0]).Err? ==>
        inQueue && queue == old(queue)[1..] && awaiting.None? && datagram.None? && !listening
        && connected == old(connected) && hasSocket == old(hasSocket) && address == old(address)
        && published == old(published)
      ensures old(queue) != [] && Osc.Encode(old(queue)[0]).Ok? && old(hasSocket) && TruthyAddress(old(address)) ==>
        inQueue && queue == old(queue)[1..] && awaiting == Some(old(queue)[0]) && listening
        && datagram == Some(Osc.Encode(old(queue)[0]).value)
        && connected == old(connected) && hasSocket && address == old(address) && published == old(published)
      ensures old(queue) != [] && Osc.Encode(old(queue)[0]).Ok? && !(old(hasSocket) && TruthyAddress(old(address))) ==>
        Flushed(old(connected), old(hasSocket), old(published), old(address)) && datagram.None?
    {
      inQueue := true;
      if queue == [] {
        inQueue := false;
        queue := [];
        awaiting := None;
        listening := false;
        return None;
      }
      var next := queue[0];
      queue := queue[1..];
      var buf := Osc.Encode(next);
      if buf.Err? {
        return None;
      }
      awaiting := Some(next);
      listening := hasSocket;
      if !hasSocket || !TruthyAddress(address) {
        Flush();
        return None;
      }
      datagram := Some(buf.value);
    }

    /**
     * `processQLabMessages`: appends the commands; while a run is active nothing else
     * happens, otherwise a run starts with `/alwaysReply` in front.
     */
    method ProcessMessages(messages: seq<Osc.Message>) returns (datagram: Option<seq<Bytes.byte>>)
      requires Valid()
      modifies this
      ensures Valid()
      ensures old(inQueue) ==>
        queue == old(queue) + messages && inQueue && awaiting == old(awaiting) && datagram.None?
        && connected == old(connected) && hasSocket == old(hasSocket) && address == old(address)
        && published == old(published) && listening == old(listening)
      ensures !old(inQueue) && old(hasSocket) && TruthyAddress(old(address)) ==>
        queue == messages && inQueue && awaiting == Some(AlwaysReply) && listening
        && datagram == Some(Osc.Encode(AlwaysReply).value)
        && connected == old(connected) && hasSocket && address == old(address) && published == old(published)
      ensures !old(inQueue) && !(old(hasSocket) && TruthyAddress(old(address))) ==>
        Flushed(old(connected), old(hasSocket), old(published), old(address)) && datagram.None?
    {
      queue := queue + messages;
      if inQueue {
        return None;
      }
      QueuedCommandsEncode([]);
      datagram := StartRun(AlwaysReply);
    }

    /**
     * A new run of `processQLabMessages`: `head` (always `/alwaysReply`) goes in front of
     * the queue and is sent first.
     */
    method StartRun(head: Osc.Message) returns (datagram: Option<seq<Bytes.byte>>)
      requires Osc.Encode(head).Ok? && !inQueue && awaiting.None? && !listening
      modifies this
      ensures Valid()
      ensures old(hasSocket) && TruthyAddress(old(address)) ==>
        queue == old(queue) && inQueue && awaiting == Some(head) && listening
        && datagram == Some(Osc.Encode(head).value)
        && connected == old(connected) && hasSocket && address == old(address) && published == old(published)
      ensures !(old(hasSocket) && TruthyAddress(old(address))) ==> Flushed(old(connected), old(hasSocket), old(published), old(address)) && datagram.None?
    {
      ghost var pending := queue;
      queue := [head] + queue;
      assert queue != [] && queue[0] == head && queue[1..] == pending;
      datagram := SendNext();
    }

    /** `getQLabCues`. */
    method GetQLabCues() returns (datagram: Option<seq<Bytes.byte>>)
      requires Valid()
      modifies this
      ensures Valid()
      ensures old(inQueue) ==>
        queue == old(queue) + [CueListsRequest] && inQueue && awaiting == old(awaiting) && datagram.None?
      ensures !old(inQueue) && old(hasSocket) && TruthyAddress(old(address)) ==>
        queue == [CueListsRequest] && awaiting == Some(AlwaysReply) && datagram == Some(Osc.Encode(AlwaysReply).value)
      ensures !old(inQueue) && !(old(hasSocket) && TruthyAddress(old(address))) ==> Flushed(old(connected), old(hasSocket), old(published), old(address)) && datagram.None?
    {
      datagram := ProcessMessages([CueListsRequest]);
    }

    /** `fireQLabCues`: one `/cue_id/<id>/start` per id, in order. */
    method FireQLabCues(ids: seq<string>) returns (datagram: Option<seq<Bytes.byte>>)
      requires Valid()
      modifies this
      ensures Valid()
      ensures old(inQueue) ==>
        queue == old(queue) + FireMessages(ids) && inQueue && awaiting == old(awaiting) && datagram.None?
      ensures !old(inQueue) && old(hasSocket) && TruthyAddress(old(address)) ==>
        queue == FireMessages(ids) && awaiting == Some(AlwaysReply) && datagram == Some(Osc.Encode(AlwaysReply).value)
      ensures !old(inQueue) && !(old(hasSocket) && TruthyAddress(old(address))) ==> Flushed(old(connected), old(hasSocket), old(published), old(address)) && datagram.None?
    {
      datagram := ProcessMessages(FireMessages(ids));
    }

    /** The reply timeout of the command in flight fires. */
    method OnReplyTimeout()
      requires Valid() && awaiting.Some?
      modifies this
      ensures Flushed(old(connected), old(hasSocket), old(published), old(address)) && Valid()
    {
      Flush();
    }

    /** The send callback of the command in flight reports an error. */
    method OnSendError()
      requires Valid() && awaiting.Some?
      modifies this
      ensures Flushed(old(connected), old(hasSocket), old(published), old(address)) && Valid()
    {
      Flush();
    }

    /**
     * A datagram arrives on the socket. The socket's handler marks QLab connected and looks
     * for a cue-list reply; then the reply listener advances the queue only for
     * `/reply/<address of the command in flight>` whose JSON status is `"ok"`. Any other
     * datagram leaves the command pending until its timeout.
     */
    method OnDatagram(buf: seq<Bytes.byte>, parse: string -> Option<Value>) returns (cues: CueReply, datagram: Option<seq<Bytes.byte>>)
      requires Valid() && hasSocket
      modifies this
      ensures Valid()
      ensures Osc.Decode(buf).Err? ==>
        MarkedUp() && queue == old(queue) && inQueue == old(inQueue) && awaiting == old(awaiting)
        && listening == old(listening) && datagram.None?
      ensures cues == (if Osc.Decode(buf).Err? then Throws else CueListReply(Osc.Decode(buf).value.message, parse))
      ensures address == old(address)
      ensures Osc.Decode(buf).Ok? ==>
        var msg := Osc.Decode(buf).value.message;
        var advances := !cues.Throws? && old(awaiting).Some? && old(listening)
                        && IsReplyTo(msg, old(awaiting).value) && ReplyOk(msg, parse);
        (!advances ==>
          MarkedUp() && queue == old(queue) && inQueue == old(inQueue) && awaiting == old(awaiting)
          && listening == old(listening) && datagram.None?)
        && (advances && old(queue) == [] ==>
          MarkedUp() && queue == [] && !inQueue && awaiting.None? && datagram.None?)
        && (advances && old(queue) != [] && Osc.Encode(old(queue)[0]).Err? ==>
          MarkedUp() && queue == old(queue)[1..] && inQueue && awaiting.None? && datagram.None?)
        && (advances && old(queue) != [] && Osc.Encode(old(queue)[0]).Ok? && TruthyAddress(old(address)) ==>
          MarkedUp() && queue == old(queue)[1..] && inQueue && awaiting == Some(old(queue)[0])
          && datagram == Some(Osc.Encode(old(queue)[0]).value))
        && (advances && old(queue) != [] && Osc.Encode(old(queue)[0]).Ok? && !TruthyAddress(old(address)) ==>
          queue == [] && !inQueue && awaiting.None? && datagram.None? && !connected && !hasSocket
          && published == old(published) + (if old(connected) then [] else [true]) + [false])
    {
      SetConnected(true);
      datagram := None;
      var decoded := Osc.Decode(buf);
      if decoded.Err? {
        cues := Throws;
        return;
      }
      var msg := decoded.value.message;
      cues := CueListReply(msg, parse);
      if cues.Throws? || awaiting.None? || !listening {
        return;
      }
      var head := awaiting.value;
      if |msg.address| == 0 || msg.address[0] != "reply" {
        return;
      }
      var same := SameSegments(msg.address[1..], head.address);
      if !same {
        return;
      }
      if !ReplyOk(msg, parse) {
        return;
      }
      awaiting := None;
      listening := false;
      datagram := SendNext();
    }

    /**
     * The 1-second reconcile tick with the configured address. It acts when the address
     * changed, or when there is no socket and the address is set. An existing socket is
     * only closed this tick; otherwise the configured address (even null) is bound and a
     * new socket created. Closing the socket does not mark QLab disconnected.
     */
    method Tick(configured: Option<string>) returns (created: bool)
      modifies this
      requires Valid()
      ensures Valid()
      ensures var acts := configured != old(address) || (!old(hasSocket) && TruthyAddress(configured));
        (created <==> acts && !old(hasSocket))
        && hasSocket == (if acts then !old(hasSocket) else old(hasSocket))
        && address == (if created then configured else old(address))
        && listening == (if acts && old(hasSocket) then false else old(listening))
        && queue == old(queue) && inQueue == old(inQueue) && awaiting == old(awaiting)
        && connected == old(connected) && published == old(published)
    {
      created := false;
      if configured != address || (!hasSocket && TruthyAddress(configured)) {
        if hasSocket {
          hasSocket := false;
          listening := false;
          return;
        }
        address := configured;
        hasSocket := true;
        created := true;
      }
    }

    /** The bind callback of a new socket sends the initial `/alwaysReply`. */
    method OnBound() returns (datagram: Option<seq<Bytes.byte>>)
      requires Valid()
      modifies this
      ensures Valid()
      ensures old(inQueue) ==> queue == old(queue) && inQueue && awaiting == old(awaiting) && datagram.None?
      ensures !old(inQueue) && old(hasSocket) && TruthyAddress(old(address)) ==>
        queue == [] && awaiting == Some(AlwaysReply) && datagram == Some(Osc.Encode(AlwaysReply).value)
    {
      datagram := ProcessMessages([]);
    }

    /** The connection timeout, 2 seconds after a socket is created: closes a socket QLab never answered. */
    method OnConnectTimeout()
      requires Valid()
      modifies this
      ensures Valid()
      ensures hasSocket == (old(hasSocket) && old(connected))
      ensures listening == (old(listening) && old(connected))
      ensures connected == old(connected) && published == old(published)
      ensures queue == old(queue) && inQueue == old(inQueue) && awaiting == old(awaiting) && address == old(address)
    {
      if !connected && hasSocket {
        hasSocket := false;
        listening := false;
        SetConnected(false);
      }
    }

    /** A socket error closes the socket and marks QLab disconnected; the run is left as it is. */
    method OnSocketError()
      requires Valid()
      modifies this
      ensures Valid()
      ensures !hasSocket && !listening && !connected
      ensures published == old(published) + (if old(connected) then [false] else [])
      ensures queue == old(queue) && inQueue == old(inQueue) && awaiting == old(awaiting) && address == old(address)
    {
      hasSocket := false;
      listening := false;
      SetConnected(false);
    }
  }

  /** Every command this module queues has no arguments, so encoding it cannot fail. */
  lemma {:induction false} QueuedCommandsEncode(ids: seq<string>)
    ensures Osc.Encode(AlwaysReply).Ok? && Osc.Encode(CueListsRequest).Ok?
    ensures forall i :: 0 <= i < |ids| ==> Osc.Encode(FireMessages(ids)[i]).Ok?
  {
    forall i | 0 <= i < |ids|
      ensures Osc.Encode(FireMessages(ids)[i]).Ok?
    {
      FireMessagesAt(ids, i);
    }
  }
}
