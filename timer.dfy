/**
 * The link to the stage timer (src/server/timer.ts): OSC over UDP to port 8000 of the
 * configured address. Commands are `/start`, `/pause` and `/reset` (the last optionally
 * with a float time); the timer answers `/state` with a number of seconds or a label, and
 * is kept subscribed by `/subscribe` every 8 seconds. Sockets and intervals are events.
 */
module Timer {
  import opened Wrappers
  import Bytes
  import Osc
  import OscProperties

  datatype Command = Start | Pause | Reset

  function CommandName(c: Command): string
  {
    match c
    case Start => "start"
    case Pause => "pause"
    case Reset => "reset"
  }

  /**
   * `timerState`: a running timer reports its seconds; otherwise a label
   * (`'finished'`, `'ready'` or `'paused'`; whatever string arrives is stored).
   */
  datatype TimerState = Seconds(n: int) | Label(s: string)

  const InitialState: TimerState := Label("ready")

  /** The optional `time` used as a condition: absent and 0 are falsy. */
  predicate TimeTruthy(time: Option<int>) { time.Some? && time.value != 0 }

  /** An address used as a condition: null and the empty string are falsy. */
  predicate TruthyAddress(a: Option<string>) { a.Some? && a.value != "" }

  /**
   * The message `sendTimerCommand` encodes. `toFloat32` is the bit pattern
   * `writeFloatBE` produces for the time.
   */
  function CommandMessage(command: Command, time: Option<int>, toFloat32: int -> Bytes.Float32Bits): Osc.Message
  {
    if command == Reset && TimeTruthy(time) then
      Osc.Message([CommandName(command)], [Osc.Float(toFloat32(time.value))])
    else
      Osc.Message([CommandName(command)], [])
  }

  const SubscribeMessage: Osc.Message := Osc.Message(["subscribe"], [])

  /** What a `/state` datagram does to `timerState`: an int or a string argument replaces it. */
  function StateUpdate(msg: Osc.Message): Option<TimerState>
  {
    if |msg.address| == 0 || msg.address[0] != "state" || msg.arguments == [] then None
    else match msg.arguments[0]
      case Int(v) => Some(Seconds(v))
      case Str(t) => Some(Label(t))
      case Float(_) => None
  }

  /** `/state` with no argument: the handler reads `.type` of `arguments[0]`, which is undefined, and throws. */
  predicate BareState(msg: Osc.Message)
  {
    |msg.address| > 0 && msg.address[0] == "state" && msg.arguments == []
  }

  lemma PlainCommandNames(c: Command)
    ensures OscProperties.PlainString(CommandName(c)) && '/' !in CommandName(c) && CommandName(c) != ""
  {
    match c
    case Start =>
      assert OscProperties.PlainString("start"[4..]);
      assert OscProperties.PlainString("start"[3..]);
      assert OscProperties.PlainString("start"[2..]);
      assert OscProperties.PlainString("start"[1..]);
    case Pause =>
      assert OscProperties.PlainString("pause"[4..]);
      assert OscProperties.PlainString("pause"[3..]);
      assert OscProperties.PlainString("pause"[2..]);
      assert OscProperties.PlainString("pause"[1..]);
    case Reset =>
      assert OscProperties.PlainString("reset"[4..]);
      assert OscProperties.PlainString("reset"[3..]);
      assert OscProperties.PlainString("reset"[2..]);
      assert OscProperties.PlainString("reset"[1..]);
  }

  /** The timer decodes every command exactly as it was built: the address and the optional float. */
  lemma CommandRoundTrip(command: Command, time: Option<int>, toFloat32: int -> Bytes.Float32Bits)
    ensures var m := CommandMessage(command, time, toFloat32);
      Osc.Encode(m).Ok? && Osc.Decode(Osc.Encode(m).value) == Ok(Osc.Decoded(m, |Osc.Encode(m).value|, []))
  {
    var m := CommandMessage(command, time, toFloat32);
    PlainCommandNames(command);
    assert OscProperties.ValidAddress(m.address);
    assert OscProperties.ValidArguments(m.arguments) by {
      if m.arguments != [] {
        assert m.arguments[1..] == [];
      }
    }
    OscProperties.DecodeEncode(m);
  }

  /** A `/state` reply with an int32 number of seconds, as the timer encodes it, sets exactly that number. */
  lemma SecondsRoundTrip(n: int)
    requires Bytes.InInt32(n)
    ensures var m := Osc.Message(["state"], [Osc.Int(n)]);
      Osc.Encode(m).Ok? && Osc.Decode(Osc.Encode(m).value).Ok?
      && StateUpdate(Osc.Decode(Osc.Encode(m).value).value.message) == Some(Seconds(n))
  {
    var m := Osc.Message(["state"], [Osc.Int(n)]);
    assert OscProperties.PlainString("state") by {
      assert OscProperties.PlainString("state"[4..]);
      assert OscProperties.PlainString("state"[3..]);
      assert OscProperties.PlainString("state"[2..]);
      assert OscProperties.PlainString("state"[1..]);
    }
    assert OscProperties.ValidAddress(m.address);
    assert OscProperties.ValidArguments(m.arguments) by {
      assert m.arguments[1..] == [];
    }
    OscProperties.DecodeEncode(m);
  }

  /** A `/state` reply carrying a label, as the timer encodes it, sets exactly that label. */
  lemma LabelRoundTrip(m: Osc.Message, text: string)
    requires m.address == ["state"] && m.arguments == [Osc.Str(text)]
    requires OscProperties.PlainString(text)
    ensures Osc.Encode(m).Ok? && Osc.Decode(Osc.Encode(m).value).Ok?
    ensures StateUpdate(Osc.Decode(Osc.Encode(m).value).value.message) == Some(Label(text))
  {
    assert OscProperties.PlainString("state") by {
      assert OscProperties.PlainString("state"[4..]);
      assert OscProperties.PlainString("state"[3..]);
      assert OscProperties.PlainString("state"[2..]);
      assert OscProperties.PlainString("state"[1..]);
    }
    assert OscProperties.ValidAddress(m.address);
    assert OscProperties.ValidArguments(m.arguments) by {
      assert m.arguments[1..] == [];
    }
    OscProperties.DecodeEncode(m);
  }

  /** A `/state` datagram without arguments decodes, so the listener reaches the read that throws. */
  lemma BareStateThrows(m: Osc.Message)
    requires m.address == ["state"] && m.arguments == []
    ensures Osc.Encode(m).Ok? && Osc.Decode(Osc.Encode(m).value).Ok?
    ensures BareState(Osc.Decode(Osc.Encode(m).value).value.message)
    ensures StateUpdate(Osc.Decode(Osc.Encode(m).value).value.message).None?
  {
    assert OscProperties.PlainString("state") by {
      assert OscProperties.PlainString("state"[4..]);
      assert OscProperties.PlainString("state"[3..]);
      assert OscProperties.PlainString("state"[2..]);
      assert OscProperties.PlainString("state"[1..]);
    }
    assert OscProperties.ValidAddress(m.address);
    OscProperties.DecodeEncode(m);
  }

  /** The timer decodes the subscribe message exactly as it was built. */
  lemma SubscribeRoundTrip()
    ensures Osc.Encode(SubscribeMessage).Ok?
    ensures Osc.Decode(Osc.Encode(SubscribeMessage).value) == Ok(Osc.Decoded(SubscribeMessage, |Osc.Encode(SubscribeMessage).value|, []))
  {
    assert OscProperties.ValidMessage(SubscribeMessage) by {
      assert OscProperties.PlainString("subscribe"[8..]);
      assert OscProperties.PlainString("subscribe"[7..]);
      assert OscProperties.PlainString("subscribe"[6..]);
      assert OscProperties.PlainString("subscribe"[5..]);
      assert OscProperties.PlainString("subscribe"[4..]);
      assert OscProperties.PlainString("subscribe"[3..]);
      assert OscProperties.PlainString("subscribe"[2..]);
      assert OscProperties.PlainString("subscribe"[1..]);
      assert OscProperties.PlainString("subscribe");
    }
    OscProperties.DecodeEncode(SubscribeMessage);
  }

  class TimerLink {
    /** `timerSocket !== null`. */
    var hasSocket: bool
    /** `timerAddress`. */
    var address: Option<string>
    /** The 8-second subscribe interval is running. */
    var subscribed: bool
    /** `timerState`. */
    var state: TimerState
    /** The `timer` messages published to the browsers, oldest first. */
    var published: seq<TimerState>

    /** A socket only exists for a usable address. */
    ghost predicate Valid()
      reads this
    {
      hasSocket ==> TruthyAddress(address)
    }

    constructor ()
      ensures Valid()
      ensures !hasSocket && address.None? && !subscribed && state == InitialState && published == []
    {
      hasSocket := false;
      address := None;
      subscribed := false;
      state := InitialState;
      published := [];
    }

    /** `getTimerState`. */
    function GetTimerState(): TimerState
      reads this
    {
      state
    }

    /**
     * `sendTimerCommand`: the encoded command, sent only while a socket and an address
     * exist; otherwise nothing is sent (only an error is logged).
     */
    method SendTimerCommand(command: Command, time: Option<int>, toFloat32: int -> Bytes.Float32Bits)
      returns (datagram: Option<seq<Bytes.byte>>)
      requires Valid()
      ensures datagram.Some? <==> hasSocket
      ensures datagram.Some? ==>
        Osc.Decode(datagram.value) == Ok(Osc.Decoded(CommandMessage(command, time, toFloat32), |datagram.value|, []))
    {
      if !(hasSocket && TruthyAddress(address)) {
        return None;
      }
      var m := CommandMessage(command, time, toFloat32);
      CommandRoundTrip(command, time, toFloat32);
      datagram := Some(Osc.Encode(m).value);
    }

    /**
     * The 1-second reconcile tick. It acts when the configured address differs from the
     * bound one, or when there is no socket and the address is set: the bound address
     * becomes the configured one, the old socket is closed, the subscribe interval stopped,
     * and a new socket is created only for a usable address, all in the same tick.
     */
    method Tick(configured: Option<string>) returns (created: bool)
      requires Valid()
      modifies this
      ensures Valid()
      ensures var acts := configured != old(address) || (!old(hasSocket) && TruthyAddress(configured));
        (created <==> acts && TruthyAddress(configured))
        && address == (if acts then configured else old(address))
        && hasSocket == (if acts then created else old(hasSocket))
        && subscribed == (if acts then false else old(subscribed))
        && state == old(state) && published == old(published)
    {
      created := false;
      if configured != address || (!hasSocket && TruthyAddress(configured)) {
        address := configured;
        hasSocket := false;
        subscribed := false;
        if TruthyAddress(address) {
          hasSocket := true;
          created := true;
        }
      }
    }

    /** The bind callback of a new socket starts the subscribe interval and subscribes at once. */
    method OnBound() returns (datagram: seq<Bytes.byte>)
      requires Valid() && hasSocket
      modifies this
      ensures Valid() && subscribed
      ensures Osc.Encode(SubscribeMessage) == Ok(datagram)
      ensures hasSocket && address == old(address) && state == old(state) && published == old(published)
    {
      subscribed := true;
      datagram := Subscribe();
    }

    /**
     * One firing of the subscribe interval. The interval keeps the socket it was started for,
     * and the error handler closes that socket without clearing the interval: once it is
     * closed, `send` throws (`threw`) instead of sending.
     */
    method OnSubscribeInterval() returns (datagram: Option<seq<Bytes.byte>>, threw: bool)
      ensures threw <==> subscribed && !hasSocket
      ensures datagram.Some? <==> subscribed && hasSocket
      ensures datagram.Some? ==> Osc.Encode(SubscribeMessage) == Ok(datagram.value)
    {
      if !subscribed {
        return None, false;
      }
      if !hasSocket {
        return None, true;
      }
      var d := Subscribe();
      datagram, threw := Some(d), false;
    }

    /** `subscribe()`: `/subscribe` with no arguments. */
    static method Subscribe() returns (datagram: seq<Bytes.byte>)
      ensures Osc.Encode(SubscribeMessage) == Ok(datagram)
    {
      SubscribeRoundTrip();
      datagram := Osc.Encode(SubscribeMessage).value;
    }

    /**
     * A datagram from the timer. A `/state` message with an int or a string argument sets
     * `timerState` and is published. A buffer that does not decode, or `/state` with no
     * argument, throws (`threw`) before any change; no handler catches it, so it ends the
     * server. Anything else changes nothing.
     */
    method OnDatagram(buf: seq<Bytes.byte>) returns (threw: bool)
      modifies this
      ensures threw <==> Osc.Decode(buf).Err? || BareState(Osc.Decode(buf).value.message)
      ensures var u := match Osc.Decode(buf) case Ok(d) => StateUpdate(d.message) case Err(_) => None;
        state == (if u.Some? then u.value else old(state))
        && published == old(published) + (if u.Some? then [u.value] else [])
      ensures hasSocket == old(hasSocket) && address == old(address) && subscribed == old(subscribed)
    {
      var decoded := Osc.Decode(buf);
      if decoded.Err? {
        return true;
      }
      threw := BareState(decoded.value.message);
      var u := StateUpdate(decoded.value.message);
      if u.Some? {
        published := published + [u.value];
        state := u.value;
      }
    }

    /** A socket error closes the socket; its close handler forgets it, and the subscribe interval keeps running. */
    method OnSocketError()
      requires Valid()
      modifies this
      ensures Valid() && !hasSocket
      ensures address == old(address) && subscribed == old(subscribed) && state == old(state) && published == old(published)
    {
      hasSocket := false;
    }
  }
}
