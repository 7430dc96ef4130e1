/** The PPP session over the cellular modem: configuring and activating the
    PDP context with AT commands (3GPP TS 27.007 `+CGDCONT`, `+CGACT`),
    waiting for the link, and the failure streak that escalates to a modem
    hard reset. */
module Ppp {
  import opened Config
  import opened Modem

  /** The commands that configure the PDP context for the APN, then activate it. */
  const CgdcontCommand: string := "AT+CGDCONT=1,\"IP\",\"" + CellularApn + "\""
  const CgactCommand: string := "AT+CGACT=1,1"

  datatype PppState = PppState(up: bool, starting: bool, startTime: U32, failStreak: U8)

  function InitialPpp(): (s: PppState)
    ensures !s.up && !s.starting && s.failStreak == 0
  {
    PppState(false, false, 0, 0)
  }

  /** A session is never both up and still starting. */
  ghost predicate Valid(s: PppState)
  {
    !(s.up && s.starting)
  }

  /** The modem is due for a hard reset after two failures in a row. */
  function ShouldHardReset(s: PppState): (r: bool)
    ensures r <==> s.failStreak >= 2
  {
    s.failStreak >= PppFailsBeforeModemReset
  }

  /** The IP check of this firmware revision is a placeholder that only
      reports the session flag. */
  function CheckIpAssigned(s: PppState): bool
  {
    s.up
  }

  function IncrementFailStreak(s: PppState): PppState
  {
    s.(failStreak := IncU8(s.failStreak))
  }

  /** `start()`: a call while starting or up changes nothing and reports
      whether the link is up; otherwise the AT configuration (`commandsOk`)
      decides between starting the session clock and counting a failure. */
  function StartStep(s: PppState, now: U32, commandsOk: bool): (r: (PppState, bool))
  {
    if s.starting || s.up then (s, s.up)
    else if commandsOk then (s.(starting := true, startTime := now), true)
    else (IncrementFailStreak(s), false)
  }

  /** A call while starting or up changes nothing and reports whether the
      link is up; otherwise the session starts exactly when both AT commands
      succeeded, and a failure adds one to the streak and nothing else. */
  lemma StartOutcomes(s: PppState, now: U32, commandsOk: bool)
    ensures s.starting || s.up ==> StartStep(s, now, commandsOk) == (s, s.up)
    ensures !s.starting && !s.up ==>
      var (t, r) := StartStep(s, now, commandsOk);
      (r <==> commandsOk) && (t.starting <==> commandsOk) && !t.up
      && (commandsOk ==> t.startTime == now && t.failStreak == s.failStreak)
      && (!commandsOk ==> t == s.(failStreak := IncU8(s.failStreak)))
  {
  }

  /** `stop()`: both flags cleared; the start time and streak are kept. */
  function StopStep(s: PppState): (t: PppState)
    ensures !t.up && !t.starting
    ensures t.startTime == s.startTime && t.failStreak == s.failStreak
  {
    if !s.up && !s.starting then s
    else s.(up := false, starting := false)
  }

  /** `waitForPppUp(timeoutMs)`: one poll of a session being started;
      `ipAssigned` is what the interface IP check answers at this poll. */
  function WaitStep(s: PppState, now: U32, timeoutMs: U32, ipAssigned: bool): (r: (PppState, bool))
    ensures s.up ==> r == (s, true)
    ensures !s.up && !s.starting ==> r == (s, false)
    ensures !s.up && s.starting ==>
      (r.1 <==> Elapsed(now, s.startTime) <= timeoutMs && ipAssigned)
    ensures r.1 && !s.up ==> r.0 == s.(up := true, starting := false, failStreak := 0)
  {
    if s.up then (s, true)
    else if !s.starting then (s, false)
    else if Elapsed(now, s.startTime) > timeoutMs then (IncrementFailStreak(StopStep(s)), false)
    else if ipAssigned then (s.(up := true, starting := false, failStreak := 0), true)
    else (s, false)
  }

  /** Every operation keeps a session from being up and starting at once. */
  lemma StepsPreserveValid(s: PppState, now: U32, ok: bool, timeoutMs: U32, ip: bool)
    requires Valid(s)
    ensures Valid(StartStep(s, now, ok).0)
    ensures Valid(StopStep(s))
    ensures Valid(WaitStep(s, now, timeoutMs, ip).0)
  {
  }

  /** Because the IP check only echoes the session flag, no operation ever
      brings the link up from a session that is down: starting times out or
      waits forever. */
  lemma LinkNeverComesUp(s: PppState, now: U32, ok: bool, timeoutMs: U32)
    requires !s.up
    ensures StartStep(s, now, ok).1 ==> StartStep(s, now, ok).0.starting
    ensures !StartStep(s, now, ok).0.up
    ensures !StopStep(s).up
    ensures !WaitStep(s, now, timeoutMs, CheckIpAssigned(s)).1
    ensures !WaitStep(s, now, timeoutMs, CheckIpAssigned(s)).0.up
  {
  }

  /** A poll past the timeout stops the session and counts one failure. */
  lemma TimeoutCountsFailure(s: PppState, now: U32, timeoutMs: U32)
    requires s.starting && !s.up
    requires Elapsed(now, s.startTime) > timeoutMs
    ensures forall ip: bool :: var (t, r) := WaitStep(s, now, timeoutMs, ip);
      !r && !t.up && !t.starting && t.failStreak == IncU8(s.failStreak)
  {
  }

  /** Two failed attempts in a row from a clean streak (either the AT
      configuration failing or the wait timing out) call for a hard reset,
      while one does not. */
  lemma {:induction false} TwoFailuresTriggerHardReset(s: PppState, t1: U32, t2: U32, timeoutMs: U32)
    requires s.failStreak == 0 && !s.up && !s.starting
    ensures var a := StartStep(s, t1, false).0;
      !ShouldHardReset(a) && ShouldHardReset(StartStep(a, t2, false).0)
    ensures var a := StartStep(s, t1, true).0;
      Elapsed(t2, t1) > timeoutMs ==>
        var b := WaitStep(a, t2, timeoutMs, true).0;
        !ShouldHardReset(b) && ShouldHardReset(StartStep(b, t2, false).0)
  {
    var a := StartStep(s, t1, true).0;
    if Elapsed(t2, t1) > timeoutMs {
      TimeoutCountsFailure(a, t2, timeoutMs);
    }
  }

  /** The streak is a `uint8_t`: after 255 failures one more wraps it to
      zero and the hard-reset request disappears. */
  lemma StreakWrapsAfter255(s: PppState, now: U32)
    requires s.failStreak == 255 && !s.up && !s.starting
    ensures ShouldHardReset(s)
    ensures !ShouldHardReset(StartStep(s, now, false).0)
  {
  }

  class PppManager {
    const modemManager: ModemManager?
    var pppUp: bool
    var pppFailStreak: U8
    var pppStartTime: U32
    var pppStarting: bool

    function State(): PppState
      reads this
    {
      PppState(pppUp, pppStarting, pppStartTime, pppFailStreak)
    }

    constructor (modemManager: ModemManager?)
      ensures this.modemManager == modemManager
      ensures State() == InitialPpp()
    {
      this.modemManager := modemManager;
      pppUp := false;
      pppFailStreak := 0;
      pppStartTime := 0;
      pppStarting := false;
    }

    /** Sends the PDP-context configuration then activation, stopping at the
        first command the modem rejects. `cgdcontReply` and `cgactReply` are
        the bytes the modem answers each command with. */
    method SendPppAtCommands(cgdcontReply: string, cgactReply: string)
      returns (ok: bool, sent: seq<string>)
      ensures modemManager == null ==> !ok && sent == []
      ensures modemManager != null ==>
        && (ok <==> Scan("OK", cgdcontReply).Matched? && Scan("OK", cgactReply).Matched?)
        && (if Scan("OK", cgdcontReply).Matched?
            then sent == [CgdcontCommand + "\r\n", CgactCommand + "\r\n"]
            else sent == [CgdcontCommand + "\r\n"])
    {
      if modemManager == null {
        return false, [];
      }
      var configured, w1 := modemManager.SendATCommand(CgdcontCommand, "OK", cgdcontReply);
      sent := [w1];
      if !configured {
        return false, sent;
      }
      var activated, w2 := modemManager.SendATCommand(CgactCommand, "OK", cgactReply);
      sent := sent + [w2];
      ok := activated;
    }

    method Start(now: U32, cgdcontReply: string, cgactReply: string) returns (r: bool)
      modifies this
      ensures var ok := modemManager != null && Scan("OK", cgdcontReply).Matched?
                        && Scan("OK", cgactReply).Matched?;
        (State(), r) == StartStep(old(State()), now, ok)
    {
      if pppStarting || pppUp {
        return pppUp;
      }
      var ok, _ := SendPppAtCommands(cgdcontReply, cgactReply);
      if ok {
        pppStarting := true;
        pppStartTime := now;
        r := true;
      } else {
        IncrementFailStreakInPlace();
        r := false;
      }
    }

    method Stop()
      modifies this
      ensures State() == StopStep(old(State()))
    {
      if !pppUp && !pppStarting {
        return;
      }
      pppUp := false;
      pppStarting := false;
    }

    /** `ipAssigned` stands for the interface IP check; in this revision
        that check answers `pppUp` (see `CheckIpAssigned`). */
    method WaitForPppUp(now: U32, timeoutMs: U32, ipAssigned: bool) returns (r: bool)
      modifies this
      ensures (State(), r) == WaitStep(old(State()), now, timeoutMs, ipAssigned)
      ensures !old(pppUp) && ipAssigned == CheckIpAssigned(old(State())) ==> !r && !pppUp
    {
      if pppUp {
        return true;
      }
      if !pppStarting {
        return false;
      }
      if Elapsed(now, pppStartTime) > timeoutMs {
        Stop();
        IncrementFailStreakInPlace();
        return false;
      }
      if ipAssigned {
        pppUp := true;
        pppStarting := false;
        ResetPppFailStreak();
        return true;
      }
      return false;
    }

    method IsUp() returns (r: bool)
      ensures r == pppUp
    {
      r := pppUp;
    }

    method GetPppFailStreak() returns (r: U8)
      ensures r == pppFailStreak
    {
      r := pppFailStreak;
    }

    method ResetPppFailStreak()
      modifies this
      ensures State() == old(State()).(failStreak := 0)
    {
      pppFailStreak := 0;
    }

    method IncrementFailStreakInPlace()
      modifies this
      ensures State() == IncrementFailStreak(old(State()))
    {
      pppFailStreak := (pppFailStreak + 1) % 256;
    }
  }
}
