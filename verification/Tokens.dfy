/** Token issue, rotation, revocation and verification (auth.py); the keyed hash is idealised as injective. */
module Tokens {
  import opened Seqs
  import opened Types

  const TOKEN_PREFIX := "atl_"

  /** A hash that tells its inputs apart. */
  datatype Digest = Digest(text: string)

  datatype Token = Token(device: Id, digest: Digest, revoked: bool)

  /** `devices` maps an enrolled device to whether it is enabled. */
  datatype Store = Store(devices: map<Id, bool>, tokens: map<Id, Token>)

  /** The transactions; each is atomic, and a crash can fall between any two. */
  datatype Op =
    | UpsertDevice(device: Id)
    | InsertToken(id: Id, device: Id, text: string)
    | RevokeOthers(device: Id, kept: Id)
    | RevokeOne(id: Id)
    | RevokeAllOf(device: Id)
    | SetEnabled(device: Id, enabled: bool)

  function RevokeWhere(tokens: map<Id, Token>, p: (Id, Token) -> bool): map<Id, Token> {
    map id | id in tokens :: if p(id, tokens[id]) then tokens[id].(revoked := true) else tokens[id]
  }

  /** Random ids and texts are idealised as unused ones: an insert that would repeat one does not happen. */
  predicate Unused(s: Store, id: Id, text: string) {
    id !in s.tokens && forall x :: x in s.tokens ==> s.tokens[x].digest != Digest(text)
  }

  function Apply(s: Store, op: Op): Store {
    match op
    case UpsertDevice(d) => if d in s.devices then s else s.(devices := s.devices[d := true])
    case InsertToken(id, d, text) =>
      if Unused(s, id, text) then s.(tokens := s.tokens[id := Token(d, Digest(text), false)]) else s
    case RevokeOthers(d, kept) => s.(tokens := RevokeWhere(s.tokens, (id: Id, t: Token) => t.device == d && id != kept))
    case RevokeOne(id) => s.(tokens := RevokeWhere(s.tokens, (x: Id, t: Token) => x == id))
    case RevokeAllOf(d) => s.(tokens := RevokeWhere(s.tokens, (id: Id, t: Token) => t.device == d))
    case SetEnabled(d, enabled) => if d in s.devices then s.(devices := s.devices[d := enabled]) else s
  }

  function ApplyAll(s: Store, ops: seq<Op>): Store {
    if ops == [] then s else Apply(ApplyAll(s, ops[..|ops| - 1]), ops[|ops| - 1])
  }

  function Active(s: Store, device: Id): set<Id> {
    set id | id in s.tokens && s.tokens[id].device == device && !s.tokens[id].revoked
  }

  ghost predicate DistinctDigests(s: Store) {
    forall a, b :: a in s.tokens && b in s.tokens && s.tokens[a].digest == s.tokens[b].digest ==> a == b
  }

  // ---------------------------------------------------------------- what every run keeps

  /** What a later store keeps of an earlier one's tokens. */
  ghost predicate Keeps(s: Store, r: Store) {
    forall id :: id in s.tokens ==>
      id in r.tokens && r.tokens[id].device == s.tokens[id].device && r.tokens[id].digest == s.tokens[id].digest &&
      (s.tokens[id].revoked ==> r.tokens[id].revoked)
  }

  lemma StepKeepsTokens(s: Store, op: Op)
    requires DistinctDigests(s)
    ensures DistinctDigests(Apply(s, op)) && Keeps(s, Apply(s, op))
  {
  }

  lemma KeepsTransitive(a: Store, b: Store, c: Store)
    requires Keeps(a, b) && Keeps(b, c)
    ensures Keeps(a, c)
  {
  }

  /** No run forgets a token, changes its device or its text, or takes a revocation back. */
  lemma {:induction false} RunKeepsTokens(s: Store, ops: seq<Op>)
    requires DistinctDigests(s)
    ensures DistinctDigests(ApplyAll(s, ops)) && Keeps(s, ApplyAll(s, ops))
  {
    if ops != [] {
      var n := |ops| - 1;
      RunKeepsTokens(s, ops[..n]);
      hide DistinctDigests, Keeps, Apply;
      StepKeepsTokens(ApplyAll(s, ops[..n]), ops[n]);
      KeepsTransitive(s, ApplyAll(s, ops[..n]), ApplyAll(s, ops));
    }
  }

  /** Revocation is permanent: no run brings a token back, moves it to another device or changes its text. */
  lemma RevokedForever(s: Store, ops: seq<Op>, id: Id)
    requires DistinctDigests(s) && id in s.tokens && s.tokens[id].revoked
    ensures var r := ApplyAll(s, ops); id in r.tokens && r.tokens[id].revoked && forall d :: id !in Active(r, d)
  {
    RunKeepsTokens(s, ops);
  }

  // ---------------------------------------------------------------- rotation

  /** The commits of a rotation with other transactions between them. */
  function Rotation(id: Id, device: Id, text: string, pre: seq<Op>, mid: seq<Op>): seq<Op> {
    [UpsertDevice(device)] + pre + [InsertToken(id, device, text)] + mid + [RevokeOthers(device, id)]
  }

  /** A transaction that revokes the token `id` of `device`. */
  predicate Kills(op: Op, id: Id, device: Id) {
    || op == RevokeOne(id)
    || op == RevokeAllOf(device)
    || (op.RevokeOthers? && op.device == device && op.kept != id)
  }

  predicate Killed(ops: seq<Op>, id: Id, device: Id) {
    exists op :: op in ops && Kills(op, id, device)
  }

  /** Random ids and texts do not come up twice: no other transaction issues this one. */
  predicate Spares(ops: seq<Op>, id: Id, text: string) {
    forall op :: op in ops && op.InsertToken? ==> op.id != id && op.text != text
  }

  lemma {:induction false} ApplyAppend(s: Store, a: seq<Op>, b: seq<Op>)
    ensures ApplyAll(s, a + b) == ApplyAll(ApplyAll(s, a), b)
  {
    hide Apply;
    if b == [] {
      assert a + b == a;
    } else {
      var n := |b| - 1;
      ApplyAppend(s, a, b[..n]);
      assert (a + b)[..|a + b| - 1] == a + b[..n];
    }
  }

  lemma ApplyOne(s: Store, op: Op)
    ensures ApplyAll(s, [op]) == Apply(s, op)
  {
    assert [op][..0] == [];
  }

  /** A token of this device, revoked or not. */
  predicate Issued(s: Store, id: Id, device: Id) {
    id in s.tokens && s.tokens[id].device == device
  }

  /** An issued token stays active exactly as long as nothing kills it. */
  lemma {:induction false} ActiveUntilKilled(s: Store, ops: seq<Op>, id: Id, device: Id)
    requires Issued(s, id, device)
    ensures var r := ApplyAll(s, ops);
            Issued(r, id, device) && (id in Active(r, device) <==> id in Active(s, device) && !Killed(ops, id, device))
  {
    if ops != [] {
      var n := |ops| - 1;
      ActiveUntilKilled(s, ops[..n], id, device);
      assert ops == ops[..n] + [ops[n]];
      assert Killed(ops, id, device) <==> Killed(ops[..n], id, device) || Kills(ops[n], id, device);
    }
  }

  /** The last commit of a rotation leaves its device no token but its own. */
  lemma LastRotateCommit(s: Store, id: Id, device: Id)
    ensures Active(Apply(s, RevokeOthers(device, id)), device) == Active(s, device) * {id}
  {
  }

  /**
   A rotation among any other transactions: the device ends with the new token and nothing else exactly when
   none of the transactions between the insert and the last commit revokes that token; otherwise with none.
   */
  lemma RotateLeavesOne(s: Store, id: Id, device: Id, text: string, pre: seq<Op>, mid: seq<Op>)
    requires Unused(ApplyAll(s, [UpsertDevice(device)] + pre), id, text)
    ensures var r := ApplyAll(s, Rotation(id, device, text, pre, mid));
            Active(r, device) == if Killed(mid, id, device) then {} else {id}
  {
    hide Apply, Kills;
    var before := ApplyAll(s, [UpsertDevice(device)] + pre);
    var issued := Apply(before, InsertToken(id, device, text));
    var late := ApplyAll(issued, mid);
    RotationStates(s, id, device, text, pre, mid);
    InsertIssues(before, id, device, text);
    ActiveUntilKilled(issued, mid, id, device);
    LastRotateCommit(late, id, device);
  }

  lemma InsertIssues(s: Store, id: Id, device: Id, text: string)
    requires Unused(s, id, text)
    ensures var r := Apply(s, InsertToken(id, device, text));
            Issued(r, id, device) && id in Active(r, device) && r.tokens[id].digest == Digest(text)
    ensures var r := Apply(s, InsertToken(id, device, text)); r.tokens - {id} == s.tokens
  {
  }

  lemma RotationStates(s: Store, id: Id, device: Id, text: string, pre: seq<Op>, mid: seq<Op>)
    ensures var late := ApplyAll(Apply(ApplyAll(s, [UpsertDevice(device)] + pre), InsertToken(id, device, text)), mid);
            && ApplyAll(s, [UpsertDevice(device)] + pre + [InsertToken(id, device, text)] + mid) == late
            && ApplyAll(s, Rotation(id, device, text, pre, mid)) == Apply(late, RevokeOthers(device, id))
  {
    hide Apply;
    var a := [UpsertDevice(device)] + pre;
    ApplyAppend(s, a, [InsertToken(id, device, text)]);
    ApplyOne(ApplyAll(s, a), InsertToken(id, device, text));
    ApplyAppend(s, a + [InsertToken(id, device, text)], mid);
    ApplyAppend(s, a + [InsertToken(id, device, text)] + mid, [RevokeOthers(device, id)]);
    ApplyOne(ApplyAll(s, a + [InsertToken(id, device, text)] + mid), RevokeOthers(device, id));
  }

  lemma RotationAlone(s: Store, id: Id, device: Id, text: string)
    requires Unused(s, id, text)
    ensures var issued := Apply(Apply(s, UpsertDevice(device)), InsertToken(id, device, text));
            var r := Apply(issued, RevokeOthers(device, id));
            && ApplyAll(s, Rotation(id, device, text, [], [])) == r
            && Active(r, device) == {id} && r.tokens[id].digest == Digest(text)
  {
    ApplyOne(s, UpsertDevice(device));
    assert [UpsertDevice(device)] + [] == [UpsertDevice(device)];
    RotationStates(s, id, device, text, [], []);
    RotateLeavesOne(s, id, device, text, [], []);
  }

  // ---------------------------------------------------------------- a rotation that dies

  /** Two stores with the same tokens but for `id`, which only the first one has. */
  ghost predicate SameBut(r: Store, s: Store, id: Id, text: string) {
    && (forall x :: x in s.tokens <==> x in r.tokens && x != id)
    && (forall x :: x in s.tokens ==> r.tokens[x] == s.tokens[x])
    && (id in r.tokens ==> r.tokens[id].digest == Digest(text))
    && (forall x :: x in s.tokens ==> s.tokens[x].digest != Digest(text))
  }

  lemma StepSameBut(r: Store, s: Store, op: Op, id: Id, text: string)
    requires SameBut(r, s, id, text) && Spares([op], id, text)
    ensures SameBut(Apply(r, op), Apply(s, op), id, text)
  {
    assert op in [op];
    match op {
      case UpsertDevice(_) =>
      case SetEnabled(_, _) =>
      case InsertToken(x, d, t) => InsertSameBut(r, s, x, d, t, id, text);
      case RevokeOthers(d, kept) => RevokeSameBut(r, s, (x: Id, t: Token) => t.device == d && x != kept, id, text);
      case RevokeOne(one) => RevokeSameBut(r, s, (x: Id, t: Token) => x == one, id, text);
      case RevokeAllOf(d) => RevokeSameBut(r, s, (x: Id, t: Token) => t.device == d, id, text);
    }
  }

  lemma RevokeSameBut(r: Store, s: Store, p: (Id, Token) -> bool, id: Id, text: string)
    requires SameBut(r, s, id, text)
    ensures SameBut(r.(tokens := RevokeWhere(r.tokens, p)), s.(tokens := RevokeWhere(s.tokens, p)), id, text)
  {
  }

  lemma InsertSameBut(r: Store, s: Store, x: Id, d: Id, t: string, id: Id, text: string)
    requires SameBut(r, s, id, text) && x != id && t != text
    ensures SameBut(Apply(r, InsertToken(x, d, t)), Apply(s, InsertToken(x, d, t)), id, text)
  {
  }

  lemma {:induction false} RunSameBut(r: Store, s: Store, ops: seq<Op>, id: Id, text: string)
    requires SameBut(r, s, id, text) && Spares(ops, id, text)
    ensures SameBut(ApplyAll(r, ops), ApplyAll(s, ops), id, text)
  {
    if ops != [] {
      var n := |ops| - 1;
      assert ops[n] in ops;
      RunSameBut(r, s, ops[..n], id, text);
      StepSameBut(ApplyAll(r, ops[..n]), ApplyAll(s, ops[..n]), ops[n], id, text);
    }
  }

  /** Registering a device touches no token, now or later. */
  lemma {:induction false} SameTokens(r: Store, s: Store, ops: seq<Op>)
    requires r.tokens == s.tokens
    ensures ApplyAll(r, ops).tokens == ApplyAll(s, ops).tokens
  {
    if ops != [] {
      SameTokens(r, s, ops[..|ops| - 1]);
    }
  }

  lemma SameButActive(r: Store, s: Store, id: Id, text: string, d: Id)
    requires SameBut(r, s, id, text)
    ensures Active(r, d) - {id} == Active(s, d)
  {
  }

  /**
   A rotation that dies, wherever it dies and whatever else goes on: before its insert every device has the
   active tokens it would have without the rotation; after it the device has the new token besides, unless
   another transaction revoked that one.
   */
  lemma RotateCrashSafe(s: Store, id: Id, device: Id, text: string, pre: seq<Op>, mid: seq<Op>, d: Id)
    requires Unused(ApplyAll(s, [UpsertDevice(device)] + pre), id, text) && Spares(mid, id, text)
    ensures Active(ApplyAll(s, [UpsertDevice(device)] + pre), d) == Active(ApplyAll(s, pre), d)
    ensures var died := ApplyAll(s, [UpsertDevice(device)] + pre + [InsertToken(id, device, text)] + mid);
            Active(died, d) == Active(ApplyAll(s, pre + mid), d) +
              (if d == device && !Killed(mid, id, device) then {id} else {})
  {
    hide Apply, Kills;
    var before := ApplyAll(s, [UpsertDevice(device)] + pre);
    var issued := Apply(before, InsertToken(id, device, text));
    DeviceOnly(s, device, pre);
    RotationStates(s, id, device, text, pre, mid);
    InsertIssues(before, id, device, text);
    RunSameBut(issued, before, mid, id, text);
    ApplyAppend(s, pre, mid);
    SameTokens(before, ApplyAll(s, pre), mid);
    SameButActive(ApplyAll(issued, mid), ApplyAll(before, mid), id, text, d);
    ActiveUntilKilled(issued, mid, id, device);
    hide ApplyAll, Killed, SameBut;
  }

  lemma DeviceOnly(s: Store, device: Id, pre: seq<Op>)
    ensures ApplyAll(s, [UpsertDevice(device)] + pre).tokens == ApplyAll(s, pre).tokens
  {
    ApplyAppend(s, [UpsertDevice(device)], pre);
    ApplyOne(s, UpsertDevice(device));
    SameTokens(Apply(s, UpsertDevice(device)), s, pre);
  }

  /** What a completed rotation does to the tokens of other devices: nothing. */
  lemma RotateSparesOthers(s: Store, id: Id, device: Id, text: string, pre: seq<Op>, mid: seq<Op>, d: Id)
    requires Unused(ApplyAll(s, [UpsertDevice(device)] + pre), id, text) && Spares(mid, id, text) && d != device
    ensures Active(ApplyAll(s, Rotation(id, device, text, pre, mid)), d) == Active(ApplyAll(s, pre + mid), d)
  {
    hide ApplyAll, Killed;
    RotateCrashSafe(s, id, device, text, pre, mid, d);
    RotationStates(s, id, device, text, pre, mid);
    OthersUntouched(ApplyAll(s, [UpsertDevice(device)] + pre + [InsertToken(id, device, text)] + mid), id, device, d);
  }

  lemma OthersUntouched(s: Store, id: Id, device: Id, d: Id)
    requires d != device
    ensures Active(Apply(s, RevokeOthers(device, id)), d) == Active(s, d)
  {
  }

  /** So a rotation of the same device whose last commit falls between those of this one locks the device out. */
  lemma OverlappingRotationsLockOut(s: Store, a: Id, b: Id, device: Id, text: string, pre: seq<Op>, mid: seq<Op>)
    requires a != b && Unused(ApplyAll(s, [UpsertDevice(device)] + pre), a, text) && RevokeOthers(device, b) in mid
    ensures Active(ApplyAll(s, Rotation(a, device, text, pre, mid)), device) == {}
  {
    RotateLeavesOne(s, a, device, text, pre, mid);
    assert Kills(RevokeOthers(device, b), a, device);
  }

  // ---------------------------------------------------------------- from enrolment to verification

  /** Whether a device that was enabled or not is so after these transactions: the last setting of it decides. */
  function EnabledAfter(enabled: bool, ops: seq<Op>, device: Id): bool {
    if ops == [] then enabled
    else
      var op := ops[|ops| - 1];
      if op.SetEnabled? && op.device == device then op.enabled else EnabledAfter(enabled, ops[..|ops| - 1], device)
  }

  /** Once known, a device stays known, and only setting it changes whether it is enabled. */
  lemma {:induction false} DeviceSettings(s: Store, ops: seq<Op>, device: Id)
    requires device in s.devices
    ensures var r := ApplyAll(s, ops);
            device in r.devices && r.devices[device] == EnabledAfter(s.devices[device], ops, device)
  {
    if ops != [] {
      DeviceSettings(s, ops[..|ops| - 1], device);
    }
  }

  /** Enrolling enables a new device, leaves a known one as it is set, and touches no other. */
  lemma EnrolledDevice(s: Store, device: Id, id: Id, text: string)
    ensures var r := Apply(Apply(s, UpsertDevice(device)), InsertToken(id, device, text));
            && device in r.devices && r.devices[device] == (device !in s.devices || s.devices[device])
            && (forall d :: d != device ==>
                 (d in r.devices <==> d in s.devices) &&
                 (d in s.devices ==> r.devices[d] == s.devices[d]))
  {
  }

  /**
   An issued text is good for its device, whatever happens in between, exactly as long as the device is enabled
   and nothing has killed its token; and it is then the text of no other token.
   */
  lemma IssuedTextVerifies(s: Store, device: Id, id: Id, secret: string, ops: seq<Op>)
    requires DistinctDigests(s) && Unused(s, id, "atl_" + secret)
    ensures var text := "atl_" + secret;
            var r := ApplyAll(Apply(Apply(s, UpsertDevice(device)), InsertToken(id, device, text)), ops);
            var granted := Prefixed(text) && device in r.devices && r.devices[device] &&
                           exists x :: x in Active(r, device) && r.tokens[x].digest == Digest(text);
            && (granted <==>
                 EnabledAfter(device !in s.devices || s.devices[device], ops, device) &&
                 !Killed(ops, id, device))
            && (forall x :: x in r.tokens && r.tokens[x].digest == Digest(text) ==> x == id)
  {
    hide Killed;
    var text := "atl_" + secret;
    var issued := Apply(Apply(s, UpsertDevice(device)), InsertToken(id, device, text));
    assert Unused(Apply(s, UpsertDevice(device)), id, text);
    InsertIssues(Apply(s, UpsertDevice(device)), id, device, text);
    EnrolledDevice(s, device, id, text);
    StepKeepsTokens(s, UpsertDevice(device));
    StepKeepsTokens(Apply(s, UpsertDevice(device)), InsertToken(id, device, text));
    hide Apply, Unused;
    var r := ApplyAll(issued, ops);
    DeviceSettings(issued, ops, device);
    ActiveUntilKilled(issued, ops, id, device);
    RunKeepsTokens(issued, ops);
    assert id in r.tokens && r.tokens[id].digest == Digest(text);
    assert text[..4] == "atl_";
  }

  // ---------------------------------------------------------------- the manager

  datatype Verdict = Granted(id: Id) | Denied(status: int)

  predicate Prefixed(text: string) {
    |text| >= |TOKEN_PREFIX| && text[..|TOKEN_PREFIX|] == TOKEN_PREFIX
  }

  class TokenManager {
    var devices: map<Id, bool>
    var tokens: map<Id, Token>

    constructor ()
      ensures Contents() == Store(map[], map[])
    {
      devices, tokens := map[], map[];
    }

    function Contents(): Store
      reads this
    {
      Store(devices, tokens)
    }

    /** `id` and `secret` are the random choices; the text handed out is the prefixed secret. */
    method Enroll(device: Id, id: Id, secret: string) returns (text: string)
      requires Unused(Contents(), id, TOKEN_PREFIX + secret)
      modifies this
      ensures text == TOKEN_PREFIX + secret && Prefixed(text)
      ensures devices == old(devices)[device := if device in old(devices) then old(devices)[device] else true]
      ensures tokens == old(tokens)[id := Token(device, Digest(text), false)]
      ensures Contents() == Apply(Apply(old(Contents()), UpsertDevice(device)), InsertToken(id, device, text))
    {
      if device !in devices {
        devices := devices[device := true];
      }
      text := TOKEN_PREFIX + secret;
      tokens := tokens[id := Token(device, Digest(text), false)];
    }

    /** With nothing between its commits a rotation leaves the device its new token only. */
    method Rotate(device: Id, id: Id, secret: string) returns (text: string)
      requires Unused(Contents(), id, TOKEN_PREFIX + secret)
      modifies this
      ensures text == TOKEN_PREFIX + secret && Prefixed(text)
      ensures Contents() == ApplyAll(old(Contents()), Rotation(id, device, text, [], []))
      ensures Active(Contents(), device) == {id} && tokens[id].digest == Digest(text)
    {
      text := Enroll(device, id, secret);
      RotationAlone(old(Contents()), id, device, text);
      tokens := RevokeWhere(tokens, (x: Id, t: Token) => t.device == device && x != id);
    }

    /** True when the token was there and not yet revoked. */
    method Revoke(id: Id) returns (changed: bool)
      modifies this`tokens
      ensures Contents() == Apply(old(Contents()), RevokeOne(id))
      ensures changed <==> id in old(tokens) && !old(tokens)[id].revoked
    {
      changed := id in tokens && !tokens[id].revoked;
      tokens := RevokeWhere(tokens, (x: Id, t: Token) => x == id);
    }

    /** How many tokens of the device were active; none is afterwards. */
    method RevokeAll(device: Id) returns (changed: nat)
      modifies this`tokens
      ensures Contents() == Apply(old(Contents()), RevokeAllOf(device))
      ensures changed == |Active(old(Contents()), device)| && Active(Contents(), device) == {}
    {
      changed := |Active(Contents(), device)|;
      tokens := RevokeWhere(tokens, (x: Id, t: Token) => t.device == device);
    }

    /**
     `verify`, over the device's active rows in whatever order the query returns them.  It grants exactly a
     prefixed text that is the text of an active token of an enabled device, and says which token it is.
     */
    method Verify(device: Id, text: string) returns (v: Verdict)
      ensures v.Granted? <==>
              |text| >= 4 && text[..4] == "atl_" && device in devices && devices[device] &&
              exists id :: id in Active(Contents(), device) && tokens[id].digest == Digest(text)
      ensures v.Granted? ==> v.id in Active(Contents(), device) && tokens[v.id].digest == Digest(text)
      ensures v.Denied? ==>
                v.status ==
                if |text| >= 4 && text[..4] == "atl_" && device in devices && !devices[device] then 403 else 401
    {
      if !Prefixed(text) || device !in devices {
        return Denied(401);
      }
      if !devices[device] {
        return Denied(403);
      }
      var candidate := Digest(text);
      var rows := Active(Contents(), device);
      ghost var seen := {};
      while rows != {}
        invariant rows + seen == Active(Contents(), device)
        invariant forall id :: id in seen ==> tokens[id].digest != candidate
        decreases rows
      {
        var id :| id in rows;
        if tokens[id].digest == candidate {
          return Granted(id);
        }
        rows := rows - {id};
        seen := seen + {id};
      }
      return Denied(401);
    }
  }

  /** The token found is the only one with its text, whichever order the rows come in. */
  lemma OneTokenPerText(ops: seq<Op>, a: Id, b: Id, text: string)
    requires var s := ApplyAll(Store(map[], map[]), ops);
             a in s.tokens && b in s.tokens && s.tokens[a].digest == Digest(text) && s.tokens[b].digest == Digest(text)
    ensures a == b
  {
    RunKeepsTokens(Store(map[], map[]), ops);
  }
}
