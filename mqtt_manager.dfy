/** The MQTT session with the broker: connection attempts paced by the
    exponential backoff, the subscription to the command topic, the failure
    streak that asks for a PPP rebuild, publishing, and delivery of incoming
    command messages. The transport client's answers are parameters. */
module Mqtt {
  import opened Config
  import opened Wrappers
  import opened BackoffUtil

  /** The calls `connect()` makes on the MQTT client, in order. */
  datatype ClientCall = ConnectCall | SubscribeCall(topic: string, qos: nat) | DisconnectCall

  datatype MqttState = MqttState(
    connected: bool,
    failStreak: U8,
    lastConnectAttempt: U32,
    lastStatusPublish: U32,
    backoffMs: U32)

  function InitialMqtt(): (s: MqttState)
    ensures !s.connected && s.failStreak == 0 && s.backoffMs == BackoffBaseMs
    ensures s.lastConnectAttempt == 0 && s.lastStatusPublish == 0
  {
    MqttState(false, 0, 0, 0, BackoffBaseMs)
  }

  /** The backoff delay stays between its base and its cap. */
  ghost predicate BackoffInRange(s: MqttState)
  {
    BackoffBaseMs <= s.backoffMs <= BackoffMaxMs
  }

  function ShouldRebuildPpp(s: MqttState): (r: bool)
    ensures r <==> s.failStreak >= 3
  {
    s.failStreak >= MqttFailsBeforePppRebuild
  }

  /** A failed attempt: one more failure and a doubled (capped) delay. */
  function CountFailure(s: MqttState): (t: MqttState)
    ensures t.failStreak == IncU8(s.failStreak)
    ensures t.backoffMs == Doubled(s.backoffMs, BackoffMaxMs)
    ensures t.connected == s.connected && t.lastConnectAttempt == s.lastConnectAttempt
    ensures t.lastStatusPublish == s.lastStatusPublish
  {
    s.(failStreak := IncU8(s.failStreak), backoffMs := Doubled(s.backoffMs, BackoffMaxMs))
  }

  /** `connect()`. `clientConnected`, `connectOk` and `subscribeOk` are the
      client's answers to `connected()`, `connect()` and `subscribe()`.
      Returns the new state, the return value and the client calls made. */
  function ConnectStep(s: MqttState, now: U32, clientConnected: bool, connectOk: bool, subscribeOk: bool)
    : (r: (MqttState, bool, seq<ClientCall>))
    ensures r.1 ==> r.0.connected
    ensures r.2 == [] ==> r.0 == s
    ensures |r.2| > 0 ==> r.0.lastConnectAttempt == now && r.2[0] == ConnectCall
    ensures r.2 == [ConnectCall] ==> !r.1 && !r.0.connected
    ensures DisconnectCall in r.2 ==> !r.1 && r.0.connected == s.connected
  {
    if s.connected && clientConnected then (s, true, [])
    else if s.lastConnectAttempt > 0 && Elapsed(now, s.lastConnectAttempt) < s.backoffMs then (s, false, [])
    else
      var a := s.(lastConnectAttempt := now);
      if connectOk then
        if subscribeOk then
          (a.(connected := true, failStreak := 0, backoffMs := BackoffBaseMs), true,
           [ConnectCall, SubscribeCall(MqttCmdTopic, 1)])
        else
          (CountFailure(a), false, [ConnectCall, SubscribeCall(MqttCmdTopic, 1), DisconnectCall])
      else
        (CountFailure(a.(connected := false)), false, [ConnectCall])
  }

  /** The connection attempt a poll makes is gated: while connected nothing
      is attempted; otherwise an attempt happens iff no attempt was made
      yet (timestamp zero) or the backoff delay has passed since the last. */
  lemma ConnectGatedByBackoff(s: MqttState, now: U32, cc: bool, co: bool, so: bool)
    ensures var (t, ok, calls) := ConnectStep(s, now, cc, co, so);
      && (s.connected && cc ==> ok && calls == [] && t == s)
      && (!(s.connected && cc) ==>
            (|calls| > 0 <==> s.lastConnectAttempt == 0 || Elapsed(now, s.lastConnectAttempt) >= s.backoffMs))
  {
  }

  /** A successful attempt subscribes to the command topic with QoS 1 and
      resets both the streak and the delay; a failed one counts a failure
      and doubles the delay. Only a failed broker connection clears the
      flag: a failed subscription leaves it as it was. */
  lemma ConnectOutcome(s: MqttState, now: U32, cc: bool, co: bool, so: bool)
    requires |ConnectStep(s, now, cc, co, so).2| > 0
    ensures var (t, ok, calls) := ConnectStep(s, now, cc, co, so);
      && (ok <==> co && so)
      && (ok ==> t.failStreak == 0 && t.backoffMs == BackoffBaseMs
                 && calls == [ConnectCall, SubscribeCall(MqttCmdTopic, 1)])
      && (!ok ==> t.failStreak == IncU8(s.failStreak)
                  && t.backoffMs == Doubled(s.backoffMs, BackoffMaxMs))
      && (!co ==> !t.connected && calls == [ConnectCall])
      && (co && !so ==> t.connected == s.connected
                        && calls == [ConnectCall, SubscribeCall(MqttCmdTopic, 1), DisconnectCall])
  {
  }

  /** Because of that, `connect()` can report a failed attempt, having
      disconnected the client, while its own flag still says connected, so
      `isConnected()` and `publish()` go on treating the session as live. */
  lemma StaleFlagAfterSubscribeFailure()
    ensures var s := MqttState(true, 0, 1000, 0, BackoffBaseMs);
      var (t, ok, calls) := ConnectStep(s, 5000, false, true, false);
      !ok && DisconnectCall in calls && t.connected
  {
    var s := MqttState(true, 0, 1000, 0, BackoffBaseMs);
    assert Elapsed(5000, 1000) == 4000;
  }

  /** The session state of `loop()`: with the client's `loop()` failing, the
      session is dropped (and a failure counted) only when the client
      reports state -1 (disconnected); any other state keeps the flag. */
  function LoopStep(s: MqttState, loopOk: bool, clientState: int): (t: MqttState)
    ensures !s.connected || loopOk ==> t == s
    ensures s.connected && !loopOk ==>
      (!t.connected <==> clientState == -1)
    ensures t != s ==> t == s.(connected := false, failStreak := IncU8(s.failStreak))
  {
    if !s.connected then s
    else if !loopOk && clientState == -1 then s.(connected := false, failStreak := IncU8(s.failStreak))
    else s
  }

  /** `publishStatus()` only stamps its interval clock: at most once per
      STATUS_INTERVAL_MS, and only while connected. */
  function PublishStatusStep(s: MqttState, now: U32): (t: MqttState)
    ensures t == s || t == s.(lastStatusPublish := now)
    ensures t != s ==> s.connected && Elapsed(now, s.lastStatusPublish) >= StatusIntervalMs
    ensures s.connected && Elapsed(now, s.lastStatusPublish) >= StatusIntervalMs ==>
      t.lastStatusPublish == now
  {
    if !s.connected then s
    else if Elapsed(now, s.lastStatusPublish) < StatusIntervalMs then s
    else s.(lastStatusPublish := now)
  }

  /** Every operation keeps the backoff delay within [base, cap]. */
  lemma StepsKeepBackoffInRange(s: MqttState, now: U32, cc: bool, co: bool, so: bool, lo: bool, st: int)
    requires BackoffInRange(s)
    ensures BackoffInRange(ConnectStep(s, now, cc, co, so).0)
    ensures BackoffInRange(LoopStep(s, lo, st))
    ensures BackoffInRange(PublishStatusStep(s, now))
  {
    DoubledStaysInRange(BackoffBaseMs, s.backoffMs, BackoffMaxMs);
  }

  /** From power-up, three failed attempts, each made once the current
      delay has passed, leave the delay at 8000 ms and ask for a PPP
      rebuild; two failures do not. */
  lemma {:induction false} ThreeFailuresRequestRebuild(t1: U32, t2: U32, t3: U32)
    requires t1 > 0 && Elapsed(t2, t1) >= 2000
    requires t2 > 0 && Elapsed(t3, t2) >= 4000
    ensures var s1 := ConnectStep(InitialMqtt(), t1, false, false, false).0;
      var s2 := ConnectStep(s1, t2, false, false, false).0;
      var s3 := ConnectStep(s2, t3, false, false, false).0;
      && s1.backoffMs == 2000 && s2.backoffMs == 4000 && s3.backoffMs == 8000
      && !ShouldRebuildPpp(s2) && ShouldRebuildPpp(s3) && s3.failStreak == 3
  {
    DoubledIsCappedDouble(1000, BackoffMaxMs);
    DoubledIsCappedDouble(2000, BackoffMaxMs);
    DoubledIsCappedDouble(4000, BackoffMaxMs);
  }

  /** A successful connection after any run of failures clears the streak,
      so the rebuild request goes away. */
  lemma SuccessClearsRebuild(s: MqttState, now: U32, cc: bool)
    requires !(s.connected && cc)
    requires s.lastConnectAttempt == 0 || Elapsed(now, s.lastConnectAttempt) >= s.backoffMs
    ensures var (t, ok, _) := ConnectStep(s, now, cc, true, true);
      ok && t.connected && !ShouldRebuildPpp(t) && t.backoffMs == BackoffBaseMs
  {
  }

  /** The text a handler receives: the payload read as a C string, that is
      up to (not including) its first NUL. */
  function CString(p: seq<char>): (m: string)
    ensures m <= p
    ensures '\0' !in m
    ensures |m| < |p| ==> p[|m|] == '\0'
  {
    if p == [] || p[0] == '\0' then [] else [p[0]] + CString(p[1..])
  }

  class MqttManager {
    const backoff: Backoff
    var connected: bool
    var mqttFailStreak: U8
    var lastConnectAttempt: U32
    var lastStatusPublish: U32
    /** Whether a command callback is registered (a null pointer otherwise). */
    var hasCommandCallback: bool

    ghost predicate Valid()
      reads this, backoff
    {
      && backoff.baseMs == BackoffBaseMs && backoff.maxMs == BackoffMaxMs
      && backoff.InRange()
    }

    function State(): MqttState
      reads this, backoff
    {
      MqttState(connected, mqttFailStreak, lastConnectAttempt, lastStatusPublish, backoff.currentMs)
    }

    constructor ()
      ensures Valid() && fresh(backoff)
      ensures State() == InitialMqtt() && !hasCommandCallback
    {
      backoff := new Backoff(BackoffBaseMs, BackoffMaxMs);
      connected := false;
      mqttFailStreak := 0;
      lastConnectAttempt := 0;
      lastStatusPublish := 0;
      hasCommandCallback := false;
    }

    method Connect(now: U32, clientConnected: bool, connectOk: bool, subscribeOk: bool)
      returns (ok: bool, calls: seq<ClientCall>)
      requires Valid()
      modifies this, backoff
      ensures Valid() && hasCommandCallback == old(hasCommandCallback)
      ensures (State(), ok, calls) == ConnectStep(old(State()), now, clientConnected, connectOk, subscribeOk)
    {
      if connected && clientConnected {
        return true, [];
      }
      var delay := backoff.GetNextDelay();
      if lastConnectAttempt > 0 && Elapsed(now, lastConnectAttempt) < delay {
        return false, [];
      }
      lastConnectAttempt := now;
      calls := [ConnectCall];
      if connectOk {
        calls := calls + [SubscribeCall(MqttCmdTopic, 1)];
        if !subscribeOk {
          calls := calls + [DisconnectCall];
          IncrementFailStreak();
          backoff.Increment();
          assert calls == [ConnectCall, SubscribeCall(MqttCmdTopic, 1), DisconnectCall];
          return false, calls;
        }
        connected := true;
        ResetMqttFailStreak();
        backoff.Reset();
        ok := true;
        assert calls == [ConnectCall, SubscribeCall(MqttCmdTopic, 1)];
      } else {
        connected := false;
        IncrementFailStreak();
        backoff.Increment();
        ok := false;
        assert DisconnectCall !in calls;
      }
    }

    /** Returns whether the client was told to disconnect. */
    method Disconnect() returns (disconnected: bool)
      modifies this
      ensures disconnected == old(connected) && !connected
      ensures mqttFailStreak == old(mqttFailStreak) && hasCommandCallback == old(hasCommandCallback)
      ensures lastConnectAttempt == old(lastConnectAttempt) && lastStatusPublish == old(lastStatusPublish)
    {
      disconnected := connected;
      if connected {
        connected := false;
      }
    }

    method IsConnected() returns (r: bool)
      ensures r == connected
    {
      r := connected;
    }

    /** `transportOk` is the client's answer to `publish()`, which is only
        consulted while connected. */
    method Publish(topic: string, payload: string, retained: bool, transportOk: bool)
      returns (ok: bool, handedToClient: bool)
      ensures handedToClient == connected
      ensures ok <==> connected && transportOk
    {
      if !connected {
        return false, false;
      }
      return transportOk, true;
    }

    /** Only the connection guard: the acknowledgement itself is built and
        sent by the caller. */
    method PublishAck(requestId: string, ok: bool, errorCode: Option<string>) returns (prepared: bool)
      ensures prepared == connected
    {
      prepared := connected;
    }

    method PublishStatus(now: U32)
      modifies this
      ensures State() == PublishStatusStep(old(State()), now)
      ensures hasCommandCallback == old(hasCommandCallback)
    {
      if !connected {
        return;
      }
      if Elapsed(now, lastStatusPublish) < StatusIntervalMs {
        return;
      }
      lastStatusPublish := now;
    }

    method SetCommandCallback(present: bool)
      modifies this
      ensures hasCommandCallback == present && State() == old(State())
    {
      hasCommandCallback := present;
    }

    method Loop(loopOk: bool, clientState: int)
      modifies this
      ensures State() == LoopStep(old(State()), loopOk, clientState)
      ensures hasCommandCallback == old(hasCommandCallback)
    {
      if !connected {
        return;
      }
      if !loopOk {
        if clientState == -1 {
          connected := false;
          IncrementFailStreak();
        }
      }
    }

    /** Hands the topic and the payload, as a C string, to the registered
        callback; nothing is delivered without one. */
    method OnMessage(topic: string, payload: seq<char>) returns (delivered: Option<(string, string)>)
      ensures hasCommandCallback ==> delivered == Some((topic, CString(payload)))
      ensures !hasCommandCallback ==> delivered == None
    {
      var message := CString(payload + ['\0']);
      assert CString(payload + ['\0']) == CString(payload) by {
        CStringOfTerminated(payload);
      }
      if hasCommandCallback {
        delivered := Some((topic, message));
      } else {
        delivered := None;
      }
    }

    method GetMqttFailStreak() returns (r: U8)
      ensures r == mqttFailStreak
    {
      r := mqttFailStreak;
    }

    method ResetMqttFailStreak()
      modifies this
      ensures mqttFailStreak == 0
      ensures connected == old(connected) && hasCommandCallback == old(hasCommandCallback)
      ensures lastConnectAttempt == old(lastConnectAttempt) && lastStatusPublish == old(lastStatusPublish)
    {
      mqttFailStreak := 0;
    }

    method IncrementFailStreak()
      modifies this
      ensures mqttFailStreak == IncU8(old(mqttFailStreak))
      ensures connected == old(connected) && hasCommandCallback == old(hasCommandCallback)
      ensures lastConnectAttempt == old(lastConnectAttempt) && lastStatusPublish == old(lastStatusPublish)
    {
      mqttFailStreak := (mqttFailStreak + 1) % 256;
    }

    method ShouldRebuildPppNow() returns (r: bool)
      ensures r <==> mqttFailStreak >= MqttFailsBeforePppRebuild
    {
      r := mqttFailStreak >= MqttFailsBeforePppRebuild;
    }
  }

  /** Terminating the copied payload with NUL does not change the C string
      read from it. */
  lemma {:induction false} CStringOfTerminated(p: seq<char>)
    ensures CString(p + ['\0']) == CString(p)
  {
    if p != [] && p[0] != '\0' {
      assert (p + ['\0'])[1..] == p[1..] + ['\0'];
      CStringOfTerminated(p[1..]);
    }
  }
}
