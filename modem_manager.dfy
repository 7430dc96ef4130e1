/** The cellular modem: its polled bring-up state machine (`init()`), the
    power-cycle and hard-reset escape hatches, and the AT response matcher
    that looks for an expected token or the literal `ERROR` in the bytes the
    modem sends back (commands `AT`, `ATE0` of ITU-T V.250 and `+CCID`,
    `+CREG?`, `+CSQ` of 3GPP TS 27.007). */
module Modem {
  import opened Config
  import opened Wrappers

  // ---------------------------------------------------------------------
  // Response matching
  // ---------------------------------------------------------------------

  /** `t` occurs in `s` starting at index `i`. */
  predicate OccursAt(s: string, t: string, i: nat)
  {
    i + |t| <= |s| && s[i..i + |t|] == t
  }

  /** `s.indexOf(t) >= 0`. */
  predicate Contains(s: string, t: string)
  {
    exists i: nat | i <= |s| :: OccursAt(s, t, i)
  }

  /** Neither the expected token nor `ERROR` occurs in any prefix of
      `input` shorter than `k` characters (the matcher tests every prefix
      right after appending a character, so prefixes of length 1, 2, ...). */
  ghost predicate NoHitBefore(expected: string, input: string, k: nat)
  {
    forall j | 1 <= j < k && j <= |input| ::
      !Contains(input[..j], expected) && !Contains(input[..j], "ERROR")
  }

  /** How the wait for a response ends: at the first prefix holding the
      expected token (tested first) or `ERROR`, or by timeout when the
      bytes that arrive in time hold neither. */
  datatype ScanResult = Matched(at: nat) | Errored(at: nat) | TimedOut

  function ScanFrom(expected: string, input: string, k: nat): (r: ScanResult)
    requires 1 <= k <= |input| + 1
    requires NoHitBefore(expected, input, k)
    ensures r.Matched? ==> k <= r.at <= |input| && Contains(input[..r.at], expected)
                           && NoHitBefore(expected, input, r.at)
    ensures r.Errored? ==> k <= r.at <= |input| && Contains(input[..r.at], "ERROR")
                           && !Contains(input[..r.at], expected)
                           && NoHitBefore(expected, input, r.at)
    ensures r.TimedOut? ==> NoHitBefore(expected, input, |input| + 1)
    decreases |input| + 1 - k
  {
    if k > |input| then TimedOut
    else if Contains(input[..k], expected) then Matched(k)
    else if Contains(input[..k], "ERROR") then Errored(k)
    else ScanFrom(expected, input, k + 1)
  }

  function Scan(expected: string, input: string): ScanResult
  {
    ScanFrom(expected, input, 1)
  }

  /** A declarative reading of success: some prefix holds the expected
      token while the prefix one character shorter holds no `ERROR`. */
  ghost predicate Accepts(expected: string, input: string)
  {
    exists k | 1 <= k <= |input| ::
      Contains(input[..k], expected) && !Contains(input[..k - 1], "ERROR")
  }

  lemma ContainsGrows(input: string, t: string, j: nat, k: nat)
    requires j <= k <= |input|
    requires Contains(input[..j], t)
    ensures Contains(input[..k], t)
  {
    var i: nat :| i <= j && OccursAt(input[..j], t, i);
    assert input[..k][i..i + |t|] == input[..j][i..i + |t|];
    assert OccursAt(input[..k], t, i);
  }

  /** The matcher succeeds exactly when the expected token shows up
      before `ERROR` does; a character completing both counts as success. */
  lemma ScanMatchesIffAccepts(expected: string, input: string)
    ensures Scan(expected, input).Matched? <==> Accepts(expected, input)
  {
    var r := Scan(expected, input);
    if r.Matched? {
      if r.at == 1 {
        assert input[..0] == [];
      }
      assert !Contains(input[..r.at - 1], "ERROR");
    }
    if Accepts(expected, input) {
      var k :| 1 <= k <= |input| && Contains(input[..k], expected)
               && !Contains(input[..k - 1], "ERROR");
      if r.Errored? && r.at < k {
        ContainsGrows(input, "ERROR", r.at, k - 1);
      }
    }
  }

  /** When one character completes both the expected token and `ERROR`,
      the matcher reports success. */
  lemma ExpectedWinsTie(expected: string, input: string, k: nat)
    requires 1 <= k <= |input|
    requires Contains(input[..k], expected) && Contains(input[..k], "ERROR")
    requires !Contains(input[..k - 1], "ERROR")
    ensures Scan(expected, input).Matched?
  {
    ScanMatchesIffAccepts(expected, input);
  }

  /** `ERROR` arriving in a prefix that lacks the expected token makes the
      matcher fail. */
  lemma ErrorFirstRejects(expected: string, input: string, k: nat)
    requires 1 <= k <= |input|
    requires Contains(input[..k], "ERROR") && !Contains(input[..k], expected)
    ensures !Scan(expected, input).Matched?
  {
    ScanMatchesIffAccepts(expected, input);
    if Accepts(expected, input) {
      var m :| 1 <= m <= |input| && Contains(input[..m], expected)
               && !Contains(input[..m - 1], "ERROR");
      if m <= k {
        ContainsGrows(input, expected, m, k);
      } else {
        ContainsGrows(input, "ERROR", k, m - 1);
      }
    }
  }

  // ---------------------------------------------------------------------
  // Bring-up state machine
  // ---------------------------------------------------------------------

  datatype InitState =
    | PowerOn | WaitPower | AtHandshake | DisableEcho
    | QuerySim | QueryNetwork | QueryRssi | Complete

  /** The stage that follows `s` on the success path. */
  function Successor(s: InitState): InitState
  {
    match s
    case PowerOn => WaitPower
    case WaitPower => AtHandshake
    case AtHandshake => DisableEcho
    case DisableEcho => QuerySim
    case QuerySim => QueryNetwork
    case QueryNetwork => QueryRssi
    case QueryRssi => Complete
    case Complete => Complete
  }

  /** The AT command a stage sends, if any. */
  function CommandOf(s: InitState): Option<string>
  {
    match s
    case AtHandshake => Some("AT")
    case DisableEcho => Some("ATE0")
    case QuerySim => Some("AT+CCID")
    case QueryNetwork => Some("AT+CREG?")
    case QueryRssi => Some("AT+CSQ")
    case _ => None
  }

  datatype Session = Session(initState: InitState, ready: bool, initStartTime: U32)

  /** `ready` is only ever true at the terminal stage. */
  ghost predicate Consistent(s: Session)
  {
    s.ready ==> s.initState == Complete
  }

  /** One call of `init()`: the new session, its return value and the AT
      command it sent. `now` is `millis()` at entry; `reply` is whether the
      command of this stage (if it has one) got `OK` before `ERROR` or the
      timeout. */
  datatype Step = Step(next: Session, ok: bool, sent: Option<string>)

  function InitStep(s: Session, now: U32, reply: bool): (r: Step)
    ensures r.ok <==> s.initState == Complete
    ensures r.ok ==> r.next.ready
    ensures !s.ready && r.next.ready ==> s.initState == Complete
    ensures r.next.initState in {s.initState, Successor(s.initState), PowerOn}
    ensures r.sent == CommandOf(s.initState)
    ensures Consistent(s) ==> Consistent(r.next)
  {
    match s.initState
    case PowerOn =>
      Step(Session(WaitPower, s.ready, now), false, None)
    case WaitPower =>
      if Elapsed(now, s.initStartTime) > ModemBootSettleMs
      then Step(s.(initState := AtHandshake, initStartTime := now), false, None)
      else Step(s, false, None)
    case AtHandshake =>
      if reply then Step(s.(initState := DisableEcho), false, Some("AT"))
      else if Elapsed(now, s.initStartTime) > AtInitTimeoutMs
      then Step(s.(initState := PowerOn), false, Some("AT"))
      else Step(s, false, Some("AT"))
    case DisableEcho =>
      if reply then Step(s.(initState := QuerySim), false, Some("ATE0"))
      else Step(s.(initState := PowerOn), false, Some("ATE0"))
    case QuerySim =>
      Step(s.(initState := QueryNetwork), false, Some("AT+CCID"))
    case QueryNetwork =>
      Step(s.(initState := QueryRssi), false, Some("AT+CREG?"))
    case QueryRssi =>
      Step(s.(initState := Complete), false, Some("AT+CSQ"))
    case Complete =>
      Step(s.(ready := true), true, None)
  }

  /** POWER_ON always moves to WAIT_POWER, stamps the clock and reports
      not ready. */
  lemma PowerOnAdvances(s: Session, now: U32, reply: bool)
    requires s.initState == PowerOn
    ensures InitStep(s, now, reply) == Step(Session(WaitPower, s.ready, now), false, None)
  {
  }

  /** WAIT_POWER moves on only after more than 5000 ms, restarting the
      clock as it enters the handshake; otherwise nothing changes. */
  lemma WaitPowerSettles(s: Session, now: U32, reply: bool)
    requires s.initState == WaitPower
    ensures var r := InitStep(s, now, reply);
      && !r.ok
      && (r.next.initState == AtHandshake <==> Elapsed(now, s.initStartTime) > 5000)
      && (r.next.initState == AtHandshake ==> r.next.initStartTime == now)
      && (r.next.initState != AtHandshake ==> r.next == s)
  {
  }

  /** A failed handshake restarts the whole power-on sequence once more
      than AT_INIT_TIMEOUT_MS have passed since the handshake began, and
      otherwise leaves the session as it was. */
  lemma HandshakeFailure(s: Session, now: U32)
    requires s.initState == AtHandshake
    ensures var r := InitStep(s, now, false);
      && !r.ok
      && (Elapsed(now, s.initStartTime) > AtInitTimeoutMs ==> r.next == s.(initState := PowerOn))
      && (Elapsed(now, s.initStartTime) <= AtInitTimeoutMs ==> r.next == s)
  {
  }

  /** A failed `ATE0` always restarts from POWER_ON. */
  lemma EchoFailureRestarts(s: Session, now: U32)
    requires s.initState == DisableEcho
    ensures InitStep(s, now, false) == Step(s.(initState := PowerOn), false, Some("ATE0"))
  {
  }

  /** The SIM, registration and signal queries are best effort: the stage
      advances whatever the reply. */
  lemma QueriesAreNonCritical(s: Session, now: U32)
    requires s.initState in {QuerySim, QueryNetwork, QueryRssi}
    ensures InitStep(s, now, true).next == InitStep(s, now, false).next
    ensures InitStep(s, now, false).next == s.(initState := Successor(s.initState))
  {
  }

  /** A handshake that never gets `OK` within AT_INIT_TIMEOUT_MS leaves the
      next call of `init()` facing POWER_ON with the modem not ready. */
  lemma HandshakeTimeoutObservedAsPowerOn(s: Session, now: U32)
    requires Consistent(s) && s.initState == AtHandshake
    requires Elapsed(now, s.initStartTime) > AtInitTimeoutMs
    ensures var r := InitStep(s, now, false);
      r.next.initState == PowerOn && !r.next.ready && !r.ok
  {
  }

  /** Power cycle and hard reset both return the session to its initial value. */
  function ResetSession(): (s: Session)
    ensures s.initState == PowerOn && !s.ready && s.initStartTime == 0
    ensures Consistent(s)
  {
    Session(PowerOn, false, 0)
  }

  class ModemManager {
    var ready: bool
    var initStartTime: U32
    var initState: InitState

    function State(): Session
      reads this
    {
      Session(initState, ready, initStartTime)
    }

    constructor ()
      ensures State() == ResetSession()
    {
      ready := false;
      initStartTime := 0;
      initState := PowerOn;
    }

    /** One non-blocking bring-up poll. `arrived` holds the bytes the modem
        sends back within AT_CMD_TIMEOUT_MS of this stage's command. */
    method Init(now: U32, arrived: string) returns (ok: bool, sent: Option<string>)
      modifies this
      ensures Step(State(), ok, sent) == InitStep(old(State()), now, Scan("OK", arrived).Matched?)
    {
      ok := false;
      sent := None;
      match initState {
        case PowerOn =>
          // UART set-up, reset pulse and power-key pulse are GPIO only
          initState := WaitPower;
          initStartTime := now;
        case WaitPower =>
          if Elapsed(now, initStartTime) > ModemBootSettleMs {
            initState := AtHandshake;
            initStartTime := now;
          }
        case AtHandshake =>
          var reply, _ := SendATCommand("AT", "OK", arrived);
          sent := Some("AT");
          if reply {
            initState := DisableEcho;
          } else if Elapsed(now, initStartTime) > AtInitTimeoutMs {
            initState := PowerOn;
          }
        case DisableEcho =>
          var reply, _ := SendATCommand("ATE0", "OK", arrived);
          sent := Some("ATE0");
          if reply {
            initState := QuerySim;
          } else {
            initState := PowerOn;
          }
        case QuerySim =>
          var _, _ := SendATCommand("AT+CCID", "OK", arrived);
          sent := Some("AT+CCID");
          initState := QueryNetwork;
        case QueryNetwork =>
          var _, _ := SendATCommand("AT+CREG?", "OK", arrived);
          sent := Some("AT+CREG?");
          initState := QueryRssi;
        case QueryRssi =>
          var _, _ := SendATCommand("AT+CSQ", "OK", arrived);
          sent := Some("AT+CSQ");
          initState := Complete;
        case Complete =>
          ready := true;
          ok := true;
      }
    }

    method PowerCycle()
      modifies this
      ensures State() == ResetSession()
    {
      ready := false;
      initState := PowerOn;
      initStartTime := 0;
    }

    method HardReset()
      modifies this
      ensures State() == ResetSession()
    {
      ready := false;
      initState := PowerOn;
      initStartTime := 0;
    }

    method IsReady() returns (r: bool)
      ensures r == ready
    {
      r := ready;
    }

    /** Writes `cmd` and a line ending, then waits for the expected token. */
    method SendATCommand(cmd: string, expected: string, arrived: string)
      returns (ok: bool, written: string)
      ensures written == cmd + "\r\n"
      ensures ok <==> Scan(expected, arrived).Matched?
      ensures ok <==> Accepts(expected, arrived)
    {
      written := cmd + "\r\n";
      ok := WaitForResponse(expected, arrived);
      ScanMatchesIffAccepts(expected, arrived);
    }

    /** Accumulates the arriving bytes, succeeding on the expected token and
        failing on `ERROR` or when the bytes run out (timeout). */
    method WaitForResponse(expected: string, arrived: string) returns (ok: bool)
      ensures ok <==> Scan(expected, arrived).Matched?
    {
      var response := "";
      var i := 0;
      while i < |arrived|
        invariant 0 <= i <= |arrived|
        invariant response == arrived[..i]
        invariant NoHitBefore(expected, arrived, i + 1)
        invariant Scan(expected, arrived) == ScanFrom(expected, arrived, i + 1)
      {
        response := response + [arrived[i]];
        i := i + 1;
        assert response == arrived[..i];
        if Contains(response, expected) {
          assert ScanFrom(expected, arrived, i) == Matched(i);
          return true;
        }
        if Contains(response, "ERROR") {
          assert ScanFrom(expected, arrived, i) == Errored(i);
          return false;
        }
      }
      return false;
    }

    /** Like `sendATCommand` but returns the text received: up to the
        matching character, plus the `drained` further bytes read during the
        short wait after a match; everything received on timeout. */
    method SendATCommandGetResponse(cmd: string, expected: string, arrived: string, drained: nat)
      returns (response: string, written: string)
      ensures written == cmd + "\r\n"
      ensures match Scan(expected, arrived)
        case Matched(k) => response == arrived[..Min(k + drained, |arrived|)]
        case Errored(k) => response == arrived[..k]
        case TimedOut => response == arrived
    {
      written := cmd + "\r\n";
      response := "";
      var i := 0;
      while i < |arrived|
        invariant 0 <= i <= |arrived|
        invariant response == arrived[..i]
        invariant NoHitBefore(expected, arrived, i + 1)
        invariant Scan(expected, arrived) == ScanFrom(expected, arrived, i + 1)
      {
        response := response + [arrived[i]];
        i := i + 1;
        assert response == arrived[..i];
        if Contains(response, expected) {
          assert ScanFrom(expected, arrived, i) == Matched(i);
          var end := Min(i + drained, |arrived|);
          response := response + arrived[i..end];
          assert arrived[..i] + arrived[i..end] == arrived[..end];
          return;
        }
        if Contains(response, "ERROR") {
          assert ScanFrom(expected, arrived, i) == Errored(i);
          return;
        }
      }
      assert arrived[..|arrived|] == arrived;
    }
  }
}
