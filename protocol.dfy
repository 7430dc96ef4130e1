/** The device side of the MQTT message protocol: validating a command
    document and copying its fields into fixed-size buffers, and building the
    acknowledgement and status documents. JSON text itself is outside the
    model: a command arrives as the parsed document (or a parse error) and
    the builders return the document's members in insertion order. */
module Protocol {
  import opened Config
  import opened Wrappers

  /** `unsigned long long`: the width the integer branches cast through. */
  const U64Modulus: int := 0x1_0000_0000_0000_0000

  /** How the JSON library stores a number. A value it holds as a double
      carries the result of the `double -> unsigned long long` cast, which
      this model does not compute. */
  datatype Num = UInt64(u: nat) | Int64(i: int) | Double(castResult: nat)

  datatype Json = JString(s: string) | JNumber(n: Num) | JBool(b: bool) | JNull | JComposite

  /** A deserialised document: `None` for a parse error, otherwise the root
      object's members (a root that is not an object has none). */
  type Doc = Option<map<string, Json>>

  /** Buffer sizes of `CommandResult`, including the NUL. */
  const RequestIdSize: nat := 37
  const CommandSize: nat := 16
  const UserIdSize: nat := 64

  datatype CommandResult = CommandResult(
    requestId: string, command: string, userId: string, issuedAt: U32, valid: bool)

  predicate IsStringField(m: map<string, Json>, key: string)
  {
    key in m && m[key].JString?
  }

  predicate IsNumberField(m: map<string, Json>, key: string)
  {
    key in m && m[key].JNumber?
  }

  /** What `parseCommand` accepts: a document that parsed, with string
      `requestId`, `command` and `userId` and a numeric `issuedAt`. */
  predicate WellFormed(doc: Doc)
  {
    doc.Some? && IsStringField(doc.value, "requestId") && IsStringField(doc.value, "command")
    && IsStringField(doc.value, "userId") && IsNumberField(doc.value, "issuedAt")
  }

  /** The value stored in the 32-bit `issuedAt`: an unsigned integer keeps
      its low 32 bits; a signed one is first cast to 64-bit unsigned. */
  function IssuedAtOf(n: Num): (t: U32)
    ensures n.UInt64? && n.u < U32Modulus ==> t == n.u
    ensures n.Int64? && 0 <= n.i < U32Modulus ==> t == n.i
    ensures n.Int64? && -U32Modulus <= n.i < 0 ==> t == n.i + U32Modulus
  {
    match n
    case UInt64(u) => u % U32Modulus
    case Int64(i) => ((i % U64Modulus) + U64Modulus) % U64Modulus % U32Modulus
    case Double(c) => c % U32Modulus
  }

  /** Validates the document and fills `result` as `parseCommand` fills its
      out-parameter: `valid` is cleared first, and on any failure the other
      fields keep what `prior` held. */
  method ParseCommand(doc: Doc, prior: CommandResult) returns (ok: bool, result: CommandResult)
    ensures ok == result.valid
    ensures ok <==> WellFormed(doc)
    ensures !ok ==> result == prior.(valid := false)
    ensures ok ==>
      && result.requestId == Truncate(doc.value["requestId"].s, RequestIdSize - 1)
      && result.command == Truncate(doc.value["command"].s, CommandSize - 1)
      && result.userId == Truncate(doc.value["userId"].s, UserIdSize - 1)
      && result.issuedAt == IssuedAtOf(doc.value["issuedAt"].n)
  {
    result := prior.(valid := false);
    if doc.None? {
      return false, result;
    }
    var m := doc.value;
    if !IsStringField(m, "requestId") {
      return false, result;
    }
    if !IsStringField(m, "command") {
      return false, result;
    }
    if !IsStringField(m, "userId") {
      return false, result;
    }
    if !IsNumberField(m, "issuedAt") {
      return false, result;
    }
    result := result.(requestId := Truncate(m["requestId"].s, RequestIdSize - 1));
    result := result.(command := Truncate(m["command"].s, CommandSize - 1));
    result := result.(userId := Truncate(m["userId"].s, UserIdSize - 1));
    var n := m["issuedAt"].n;
    match n {
      case UInt64(u) =>
        result := result.(issuedAt := u % U32Modulus);
      case Int64(i) =>
        result := result.(issuedAt := ((i % U64Modulus) + U64Modulus) % U64Modulus % U32Modulus);
      case Double(c) =>
        result := result.(issuedAt := c % U32Modulus);
    }
    result := result.(valid := true);
    ok := true;
  }

  /** A command whose fields fit their buffers is carried over unchanged;
      a request id longer than 36 characters keeps only its first 36. */
  lemma FieldsWithinBuffersSurvive(requestId: string, command: string, userId: string)
    ensures |requestId| <= 36 && |command| <= 15 && |userId| <= 63 ==>
      Truncate(requestId, RequestIdSize - 1) == requestId
      && Truncate(command, CommandSize - 1) == command
      && Truncate(userId, UserIdSize - 1) == userId
    ensures |requestId| > 36 ==> Truncate(requestId, RequestIdSize - 1) == requestId[..36]
  {
  }

  /** `issuedAt` is reduced modulo 2^32 whichever integer branch reads it;
      a negative value wraps to the top of the range. */
  lemma IssuedAtWraps(v: int)
    ensures 0 <= v < U64Modulus ==> IssuedAtOf(UInt64(v)) == v % U32Modulus
    ensures -U64Modulus <= v < U64Modulus ==> IssuedAtOf(Int64(v)) == v % U32Modulus
    ensures IssuedAtOf(Int64(-1)) == 0xFFFF_FFFF
  {
    if -U64Modulus <= v < U64Modulus {
      var q := v / U32Modulus;
      var r := v % U32Modulus;
      assert v == q * U32Modulus + r;
      var w := (v % U64Modulus + U64Modulus) % U64Modulus;
      if v >= 0 {
        ModUnique(v, 0, v, U64Modulus);
        ModUnique(v + U64Modulus, 1, v, U64Modulus);
        assert w == v;
      } else {
        ModUnique(v, -1, v + U64Modulus, U64Modulus);
        ModUnique(v + 2 * U64Modulus, 1, v + U64Modulus, U64Modulus);
        assert w == v + U64Modulus;
        assert w == (q + 0x1_0000_0000) * U32Modulus + r;
        ModUnique(w, q + 0x1_0000_0000, r, U32Modulus);
      }
    }
  }

  /** `createAck`: `requestId` (null when absent) and `ok` always; the
      error code only on failure and only when one is given. */
  function CreateAck(requestId: Option<string>, ok: bool, errorCode: Option<string>)
    : (members: seq<(string, Json)>)
    ensures |members| >= 2 && members[0] == ("requestId", OptString(requestId)) && members[1] == ("ok", JBool(ok))
    ensures |members| == 3 <==> !ok && errorCode.Some?
    ensures |members| <= 3
    ensures |members| == 3 ==> members[2] == ("errorCode", JString(errorCode.value))
  {
    var base := [("requestId", OptString(requestId)), ("ok", JBool(ok))];
    if !ok && errorCode.Some? then base + [("errorCode", JString(errorCode.value))] else base
  }

  /** A C string argument as the JSON library stores it. */
  function OptString(s: Option<string>): Json
  {
    match s
    case None => JNull
    case Some(t) => JString(t)
  }

  /** The member names of a built document, in order. */
  function Keys(members: seq<(string, Json)>): (ks: seq<string>)
    ensures |ks| == |members|
  {
    seq(|members|, i requires 0 <= i < |members| => members[i].0)
  }

  /** `createStatus`: device id, online flag and timestamp always; `rssi`
      only when non-zero and `fwVersion` only when given. */
  function CreateStatus(deviceId: Option<string>, online: bool, updatedAt: U32, rssi: int,
                        fwVersion: Option<string>): (members: seq<(string, Json)>)
    ensures |members| == 3 + (if rssi != 0 then 1 else 0) + (if fwVersion.Some? then 1 else 0)
    ensures Keys(members)[..3] == ["deviceId", "online", "updatedAt"]
    ensures "rssi" in Keys(members) <==> rssi != 0
    ensures "fwVersion" in Keys(members) <==> fwVersion.Some?
    ensures members[0].1 == OptString(deviceId) && members[1].1 == JBool(online)
    ensures members[2].1 == JNumber(UInt64(updatedAt))
    ensures rssi != 0 ==> members[3] == ("rssi", JNumber(Int64(rssi)))
    ensures fwVersion.Some? ==> members[|members| - 1] == ("fwVersion", JString(fwVersion.value))
  {
    var base := [("deviceId", OptString(deviceId)), ("online", JBool(online)),
                 ("updatedAt", JNumber(UInt64(updatedAt)))];
    var withRssi := if rssi != 0 then base + [("rssi", JNumber(Int64(rssi)))] else base;
    var members := if fwVersion.Some? then withRssi + [("fwVersion", JString(fwVersion.value))] else withRssi;
    assert Keys(members)[..3] == ["deviceId", "online", "updatedAt"];
    assert rssi != 0 ==> Keys(members)[3] == "rssi";
    assert fwVersion.Some? ==> Keys(members)[|members| - 1] == "fwVersion";
    members
  }

  /** The value a reader of a built document finds under `key`: that of
      the first member with the name, or nothing. */
  function Lookup(members: seq<(string, Json)>, key: string): (v: Option<Json>)
    ensures v.Some? ==> exists k | 0 <= k < |members| :: members[k] == (key, v.value)
  {
    if members == [] then None
    else if members[0].0 == key then Some(members[0].1)
    else
      var v := Lookup(members[1..], key);
      if v.Some? then
        var k :| 0 <= k < |members| - 1 && members[1..][k] == (key, v.value);
        assert members[k + 1] == (key, v.value);
        v
      else v
  }

  lemma {:induction false} LookupFinds(members: seq<(string, Json)>, i: nat, key: string)
    requires i < |members| && members[i].0 == key
    requires forall j | 0 <= j < i :: members[j].0 != key
    ensures Lookup(members, key) == Some(members[i].1)
  {
    if i > 0 {
      LookupFinds(members[1..], i - 1, key);
    }
  }

  lemma {:induction false} LookupMisses(members: seq<(string, Json)>, key: string)
    requires forall j | 0 <= j < |members| :: members[j].0 != key
    ensures Lookup(members, key) == None
  {
    if members != [] {
      LookupMisses(members[1..], key);
    }
  }

  /** Reading the acknowledgement back: `requestId` (null when absent) and
      `ok` are always there, `errorCode` only on a failure that names one. */
  lemma AckReadsBack(requestId: Option<string>, ok: bool, errorCode: Option<string>)
    ensures var m := CreateAck(requestId, ok, errorCode);
      && Lookup(m, "requestId") == Some(OptString(requestId))
      && Lookup(m, "ok") == Some(JBool(ok))
      && Lookup(m, "errorCode") == (if !ok && errorCode.Some? then Some(JString(errorCode.value)) else None)
  {
    var m := CreateAck(requestId, ok, errorCode);
    assert "ok" != "requestId";
    LookupFinds(m, 0, "requestId");
    LookupFinds(m, 1, "ok");
    if |m| == 3 {
      LookupFinds(m, 2, "errorCode");
    } else {
      LookupMisses(m, "errorCode");
    }
  }

  /** Reading the status document back: each argument is found under its
      own name, `rssi` exactly when non-zero and `fwVersion` exactly when
      given. */
  lemma StatusReadsBack(deviceId: Option<string>, online: bool, updatedAt: U32, rssi: int,
                        fwVersion: Option<string>)
    ensures var m := CreateStatus(deviceId, online, updatedAt, rssi, fwVersion);
      && Lookup(m, "deviceId") == Some(OptString(deviceId))
      && Lookup(m, "online") == Some(JBool(online))
      && Lookup(m, "updatedAt") == Some(JNumber(UInt64(updatedAt)))
      && Lookup(m, "rssi") == (if rssi != 0 then Some(JNumber(Int64(rssi))) else None)
      && Lookup(m, "fwVersion") == (if fwVersion.Some? then Some(JString(fwVersion.value)) else None)
  {
    var m := CreateStatus(deviceId, online, updatedAt, rssi, fwVersion);
    var ks := Keys(m);
    assert ks[0] == "deviceId" && ks[1] == "online" && ks[2] == "updatedAt";
    assert "online"[0] != "deviceId"[0] && "updatedAt"[0] != "deviceId"[0] && "updatedAt"[0] != "online"[0];
    assert "rssi"[0] !in {'d', 'o', 'u', 'f'} && "fwVersion"[0] !in {'d', 'o', 'u', 'r'};
    LookupFinds(m, 0, "deviceId");
    LookupFinds(m, 1, "online");
    LookupFinds(m, 2, "updatedAt");
    if rssi != 0 {
      LookupFinds(m, 3, "rssi");
    } else {
      LookupMisses(m, "rssi");
    }
    if fwVersion.Some? {
      LookupFinds(m, |m| - 1, "fwVersion");
    } else {
      LookupMisses(m, "fwVersion");
    }
  }
}
