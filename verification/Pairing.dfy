/** Pairing codes, one-time keys, device approval and revocation
    (`agent/src/http_pages.rs`, `agent/src/one_time_keys.rs`, `agent/src/approval.rs`, `agent/src/auth.rs`).

    The four tables are maps; a transaction is one atomic step whose statements are numbered, and
    `failAt` names the statement that fails, if any. A run is any finite sequence of steps, so every
    interleaving of handler calls is one. `Grant` records, for the theorems only, which credential
    created which device.
 */
module Pairing {
  import opened Common

  datatype Approval = PendingApproval | Approved | Rejected

  datatype CodeRow = CodeRow(expiresAt: int, usedAt: Option<int>)

  datatype OtkRow = OtkRow(createdAt: int, expiresAt: int, usedAt: Option<int>, consumedBy: Option<string>)

  datatype SessionRow = SessionRow(createdAt: int, device: Option<string>)

  /** A stored password hash, idealised: it verifies the key it was made from and no other. */
  datatype KeyHash = HashOf(key: string)

  datatype DeviceRow = DeviceRow(
    approval: Approval, revokedAt: Option<int>, apiKeyHash: Option<KeyHash>, apiKeyLast4: string)

  datatype Db = Db(
    codes: map<string, CodeRow>, otks: map<string, OtkRow>,
    sessions: map<string, SessionRow>, devices: map<string, DeviceRow>)

  const PAIRING_TTL_SECS: int := 300
  const OTK_TTL_SECS: int := 1800

  /** What a handler makes up for one login: random identifiers, a random key, and the approval its setting gives. */
  datatype Login = Login(session: string, device: string, apiKey: string, approval: Approval)

  datatype LoginResult = LoggedIn | CredentialInvalid | InternalError

  predicate Fails(failAt: Option<nat>, statement: nat) {
    failAt == Some(statement)
  }

  function Last4(key: string): string {
    if |key| < 4 then key else key[|key| - 4..]
  }

  /** Random identifiers and keys have not been drawn before. */
  ghost predicate Fresh(db: Db, login: Login) {
    && login.session !in db.sessions && login.device !in db.devices && |login.apiKey| >= 4
    && (forall d :: d in db.devices ==> db.devices[d].apiKeyHash != Some(HashOf(login.apiKey)))
  }

  // ---------- What each transaction does to the tables ----------

  predicate CodeUsable(db: Db, code: string, now: int) {
    code in db.codes && db.codes[code].usedAt.None? && now <= db.codes[code].expiresAt
  }

  predicate OtkLive(db: Db, token: string, now: int) {
    token in db.otks && db.otks[token].usedAt.None? && db.otks[token].expiresAt > now
  }

  function LiveOtks(db: Db, now: int): set<string> {
    set t | t in db.otks && OtkLive(db, t, now)
  }

  /** The three tables' worth of one successful login. */
  function WithLogin(db: Db, login: Login, now: int): Db {
    db.(sessions := db.sessions[login.session := SessionRow(now, Some(login.device))],
        devices := db.devices[login.device :=
          DeviceRow(login.approval, None, Some(HashOf(login.apiKey)), Last4(login.apiKey))])
  }

  function CreateCodeSpec(db: Db, code: string, now: int): Db {
    if code in db.codes then db else db.(codes := db.codes[code := CodeRow(now + PAIRING_TTL_SECS, None)])
  }

  const EXCHANGE_STATEMENTS: nat := 7

  function ExchangeSpec(db: Db, code: string, login: Login, now: int, failAt: Option<nat>): (Db, LoginResult) {
    if Fails(failAt, 0) then (db, InternalError)
    else if !CodeUsable(db, code, now) then (db, CredentialInvalid)
    else if failAt.Some? && failAt.value < EXCHANGE_STATEMENTS then (db, InternalError)
    else (WithLogin(db.(codes := db.codes[code := db.codes[code].(usedAt := Some(now))]), login, now), LoggedIn)
  }

  const PERMANENT_STATEMENTS: nat := 6

  function PermanentKeySpec(db: Db, valid: bool, login: Login, now: int, failAt: Option<nat>): (Db, LoginResult) {
    if !valid then (db, CredentialInvalid)
    else if failAt.Some? && failAt.value < PERMANENT_STATEMENTS then (db, InternalError)
    else (WithLogin(db, login, now), LoggedIn)
  }

  const OTK_STATEMENTS: nat := 9

  function OtkLoginSpec(db: Db, token: string, login: Login, now: int, failAt: Option<nat>): (Db, LoginResult) {
    if Fails(failAt, 0) then (db, InternalError)
    else if Fails(failAt, 1) || !OtkLive(db, token, now) || Fails(failAt, 2) then (db, CredentialInvalid)
    else if failAt.Some? && failAt.value < OTK_STATEMENTS then (db, InternalError)
    else (WithLogin(db.(otks := db.otks[token := db.otks[token].(usedAt := Some(now), consumedBy := Some(login.device))]),
                    login, now), LoggedIn)
  }

  /** The first half of `generate_otk`: every live key is marked used. */
  function ExpireLiveSpec(db: Db, now: int): Db {
    db.(otks := map t | t in db.otks :: if OtkLive(db, t, now) then db.otks[t].(usedAt := Some(now)) else db.otks[t])
  }

  /** The second half: the new key's row, refused if the token is taken. */
  function InsertOtkSpec(db: Db, token: string, now: int): Db {
    if token in db.otks then db
    else db.(otks := db.otks[token := OtkRow(now, now + OTK_TTL_SECS, None, None)])
  }

  function SetApprovalSpec(db: Db, device: string, approval: Approval): Db {
    if device !in db.devices then db
    else db.(devices := db.devices[device := db.devices[device].(approval := approval)])
  }

  function RevokeSpec(db: Db, device: string, now: int): Db {
    if device !in db.devices || db.devices[device].revokedAt.Some? then db
    else db.(devices := db.devices[device := db.devices[device].(revokedAt := Some(now))])
  }

  // ---------- The two ways in ----------

  /** The device the session cookie speaks for: sessions joined to devices from the left, so that a session
      whose device has no row is let through. */
  function CookieAdmits(db: Db, session: string): Option<string> {
    if session !in db.sessions || db.sessions[session].device.None? then None
    else
      var device := db.sessions[session].device.value;
      if device !in db.devices then Some(device)
      else if db.devices[device].revokedAt.None? && db.devices[device].approval.Approved? then Some(device)
      else None
  }

  /** The filter of the Bearer query, apart from the key itself. */
  predicate Eligible(db: Db, device: string) {
    && device in db.devices
    && db.devices[device].apiKeyHash.Some? && db.devices[device].revokedAt.None? && db.devices[device].approval.Approved?
  }

  predicate KeyMatches(db: Db, device: string, presented: string) {
    device in db.devices && db.devices[device].apiKeyHash == Some(HashOf(presented))
  }

  /** What the Bearer query may answer. Where each stored `apiKeyLast4` is that of its key, the pre-filter
      loses nothing; `BearerExact` shows that it is. */
  ghost predicate BearerAnswer(db: Db, presented: string, device: Option<string>) {
    && (device.Some? ==> |presented| >= 4 && Eligible(db, device.value) && KeyMatches(db, device.value, presented))
    && (device.None? && |presented| >= 4 ==>
          forall d :: Eligible(db, d) && KeyMatches(db, d, presented) ==> db.devices[d].apiKeyLast4 != Last4(presented))
  }

  // ---------- The database and its transactions ----------

  class AgentDb {
    var codes: map<string, CodeRow>
    var otks: map<string, OtkRow>
    var sessions: map<string, SessionRow>
    var devices: map<string, DeviceRow>

    function View(): Db
      reads this
    {
      Db(codes, otks, sessions, devices)
    }

    constructor ()
      ensures View() == Db(map[], map[], map[], map[])
    {
      codes, otks, sessions, devices := map[], map[], map[], map[];
    }

    method CreatePairingCode(code: string, now: int, fails: bool) returns (ok: bool)
      modifies this`codes
      ensures View() == if ok then CreateCodeSpec(old(View()), code, now) else old(View())
      ensures ok <==> !fails && code !in old(codes)
    {
      if fails || code in codes {
        return false;
      }
      codes := codes[code := CodeRow(now + PAIRING_TTL_SECS, None)];
      return true;
    }

    /** Inserts a device row; a row that is there already keeps its approval, revocation and key. */
    static function UpsertDevice(devices: map<string, DeviceRow>, device: string, approval: Approval): map<string, DeviceRow> {
      if device in devices then devices else devices[device := DeviceRow(approval, None, None, "")]
    }

    static function BindSession(sessions: map<string, SessionRow>, session: string, device: string): map<string, SessionRow> {
      if session !in sessions then sessions else sessions[session := sessions[session].(device := Some(device))]
    }

    static function IssueApiKey(devices: map<string, DeviceRow>, device: string, key: string): map<string, DeviceRow> {
      if device !in devices then devices
      else devices[device := devices[device].(apiKeyHash := Some(HashOf(key)), apiKeyLast4 := Last4(key))]
    }

    /** The session and device statements of a login, taken together. */
    static lemma LoginRows(db: Db, login: Login, now: int)
      requires Fresh(db, login)
      ensures var inserted := db.sessions[login.session := SessionRow(now, Some(login.device))];
        && BindSession(inserted, login.session, login.device) == WithLogin(db, login, now).sessions
        && IssueApiKey(UpsertDevice(db.devices, login.device, login.approval), login.device, login.apiKey)
           == WithLogin(db, login, now).devices
    {
      var upserted := UpsertDevice(db.devices, login.device, login.approval);
      assert upserted[login.device].approval == login.approval;
    }

    method ApiPairingExchange(code: string, login: Login, now: int, failAt: Option<nat>) returns (r: LoginResult)
      requires Fresh(View(), login)
      modifies this
      ensures (View(), r) == ExchangeSpec(old(View()), code, login, now, failAt)
    {
      hide UpsertDevice, BindSession, IssueApiKey, Fresh, Last4;
      LoginRows(View(), login, now);
      if Fails(failAt, 0) {
        return InternalError;
      }
      if code !in codes {
        return CredentialInvalid;
      }
      var row := codes[code];
      if row.usedAt.Some? {
        return CredentialInvalid;
      }
      if now > row.expiresAt {
        return CredentialInvalid;
      }
      if Fails(failAt, 1) {
        return InternalError;
      }
      var txCodes := codes[code := row.(usedAt := Some(now))];
      if Fails(failAt, 2) {
        return InternalError;
      }
      var txSessions := sessions[login.session := SessionRow(now, Some(login.device))];
      if Fails(failAt, 3) {
        return InternalError;
      }
      var txDevices := UpsertDevice(devices, login.device, login.approval);
      if Fails(failAt, 4) {
        return InternalError;
      }
      txSessions := BindSession(txSessions, login.session, login.device);
      if Fails(failAt, 5) {
        return InternalError;
      }
      txDevices := IssueApiKey(txDevices, login.device, login.apiKey);
      if Fails(failAt, 6) {
        return InternalError;
      }
      codes, sessions, devices := txCodes, txSessions, txDevices;
      return LoggedIn;
    }

    method ApiPairingExchangePermanent(valid: bool, login: Login, now: int, failAt: Option<nat>) returns (r: LoginResult)
      requires Fresh(View(), login)
      modifies this`sessions, this`devices
      ensures (View(), r) == PermanentKeySpec(old(View()), valid, login, now, failAt)
    {
      hide UpsertDevice, BindSession, IssueApiKey, Fresh, Last4;
      LoginRows(View(), login, now);
      if !valid {
        return CredentialInvalid;
      }
      if Fails(failAt, 0) || Fails(failAt, 1) {
        return InternalError;
      }
      var txSessions := sessions[login.session := SessionRow(now, Some(login.device))];
      if Fails(failAt, 2) {
        return InternalError;
      }
      var txDevices := UpsertDevice(devices, login.device, login.approval);
      if Fails(failAt, 3) {
        return InternalError;
      }
      txSessions := BindSession(txSessions, login.session, login.device);
      if Fails(failAt, 4) {
        return InternalError;
      }
      txDevices := IssueApiKey(txDevices, login.device, login.apiKey);
      if Fails(failAt, 5) {
        return InternalError;
      }
      sessions, devices := txSessions, txDevices;
      return LoggedIn;
    }

    /** Marks the key used inside the caller's transaction, whose copy of the table it is given. */
    static method ConsumeOtkTx(tx: map<string, OtkRow>, token: string, now: int, failAt: Option<nat>)
      returns (ok: bool, tx': map<string, OtkRow>)
      ensures ok <==>
        && !Fails(failAt, 1) && !Fails(failAt, 2)
        && token in tx && tx[token].usedAt.None? && tx[token].expiresAt > now
      ensures ok ==> tx' == tx[token := tx[token].(usedAt := Some(now))]
    {
      tx' := tx;
      if Fails(failAt, 1) {
        return false, tx;
      }
      var rowsAffected := 0;
      if token in tx && tx[token].usedAt.None? && tx[token].expiresAt > now {
        tx' := tx[token := tx[token].(usedAt := Some(now))];
        rowsAffected := 1;
      }
      if rowsAffected != 1 {
        return false, tx';
      }
      ok := !Fails(failAt, 2);
    }

    method ApiLoginOneTime(token: string, login: Login, now: int, failAt: Option<nat>) returns (r: LoginResult)
      requires Fresh(View(), login)
      modifies this
      ensures (View(), r) == OtkLoginSpec(old(View()), token, login, now, failAt)
    {
      hide UpsertDevice, BindSession, IssueApiKey, Fresh, Last4;
      LoginRows(View(), login, now);
      if Fails(failAt, 0) {
        return InternalError;
      }
      var consumed, txOtks := ConsumeOtkTx(otks, token, now, failAt);
      if !consumed {
        return CredentialInvalid;
      }
      if Fails(failAt, 3) {
        return InternalError;
      }
      txOtks := txOtks[token := txOtks[token].(consumedBy := Some(login.device))];
      assert txOtks == otks[token := otks[token].(usedAt := Some(now), consumedBy := Some(login.device))];
      if Fails(failAt, 4) {
        return InternalError;
      }
      var txSessions := sessions[login.session := SessionRow(now, Some(login.device))];
      if Fails(failAt, 5) {
        return InternalError;
      }
      var txDevices := UpsertDevice(devices, login.device, login.approval);
      if Fails(failAt, 6) {
        return InternalError;
      }
      txSessions := BindSession(txSessions, login.session, login.device);
      if Fails(failAt, 7) {
        return InternalError;
      }
      txDevices := IssueApiKey(txDevices, login.device, login.apiKey);
      if Fails(failAt, 8) {
        return InternalError;
      }
      otks, sessions, devices := txOtks, txSessions, txDevices;
      return LoggedIn;
    }

    method ExpireLiveOtks(now: int)
      modifies this`otks
      ensures View() == ExpireLiveSpec(old(View()), now)
    {
      otks := map t | t in otks ::
        if otks[t].usedAt.None? && otks[t].expiresAt > now then otks[t].(usedAt := Some(now)) else otks[t];
    }

    /** Two statements and no transaction: the failure of the first is ignored, and if the second fails the
        first is not undone. */
    method GenerateOtk(token: string, now: int, expireFails: bool, insertFails: bool) returns (ok: bool)
      modifies this`otks
      ensures var expired := if expireFails then old(View()) else ExpireLiveSpec(old(View()), now);
        && ok == (!insertFails && token !in expired.otks)
        && View() == if ok then InsertOtkSpec(expired, token, now) else expired
      ensures LiveOtks(View(), now)
        == (if expireFails then LiveOtks(old(View()), now) else {}) + (if ok then {token} else {})
    {
      if !expireFails {
        ExpireLiveOtks(now);
        assert LiveOtks(View(), now) == {};
      }
      ghost var expired := View();
      if insertFails || token in otks {
        return false;
      }
      otks := otks[token := OtkRow(now, now + OTK_TTL_SECS, None, None)];
      assert LiveOtks(View(), now) == LiveOtks(expired, now) + {token};
      return true;
    }

    /** The live key to show: the most recently created one. A query that fails shows none. */
    method ActiveOtk(now: int, fails: bool) returns (token: Option<string>)
      ensures token.None? <==> fails || LiveOtks(View(), now) == {}
      ensures token.Some? ==> token.value in LiveOtks(View(), now)
      ensures token.Some? ==> forall t :: t in LiveOtks(View(), now) ==> otks[t].createdAt <= otks[token.value].createdAt
    {
      token := None;
      if fails {
        return;
      }
      var live := LiveOtks(View(), now);
      var rest := live;
      while rest != {}
        invariant rest <= live
        invariant token.None? ==> rest == live
        invariant token.Some? ==> token.value in live
        invariant token.Some? ==> forall t :: t in live - rest ==> otks[t].createdAt <= otks[token.value].createdAt
        decreases rest
      {
        var t :| t in rest;
        if token.None? || otks[t].createdAt > otks[token.value].createdAt {
          token := Some(t);
        }
        rest := rest - {t};
      }
    }

    method ApproveDevice(device: string, fails: bool) returns (ok: bool)
      modifies this`devices
      ensures ok <==> !fails && device in old(devices)
      ensures View() == if ok then SetApprovalSpec(old(View()), device, Approved) else old(View())
    {
      ok := !fails && device in devices;
      if ok {
        devices := devices[device := devices[device].(approval := Approved)];
      }
    }

    method RejectDevice(device: string, fails: bool) returns (ok: bool)
      modifies this`devices
      ensures ok <==> !fails && device in old(devices)
      ensures View() == if ok then SetApprovalSpec(old(View()), device, Rejected) else old(View())
    {
      ok := !fails && device in devices;
      if ok {
        devices := devices[device := devices[device].(approval := Rejected)];
      }
    }

    /** Revoking an unknown device, or one already revoked, is no error. */
    method RevokeDevice(device: string, now: int, fails: bool) returns (ok: bool)
      modifies this`devices
      ensures ok <==> !fails
      ensures View() == if ok then RevokeSpec(old(View()), device, now) else old(View())
    {
      if fails {
        return false;
      }
      ok := true;
      if device in devices && devices[device].revokedAt.None? {
        devices := devices[device := devices[device].(revokedAt := Some(now))];
      }
    }

    /** Bearer authentication: the rows that pass the filter and share the key's last four characters are
        tried one by one, in whatever order the query gives them. */
    method VerifyApiKey(presented: string, fails: bool) returns (device: Option<string>)
      ensures if fails then device.None? else BearerAnswer(View(), presented, device)
    {
      if |presented| < 4 || fails {
        return None;
      }
      var last4 := Last4(presented);
      var rows := set d | d in devices
        && devices[d].apiKeyHash.Some? && devices[d].revokedAt.None?
        && devices[d].apiKeyLast4 == last4 && devices[d].approval.Approved?;
      var rest := rows;
      while rest != {}
        invariant rest <= rows
        invariant forall d :: d in rows - rest ==> devices[d].apiKeyHash != Some(HashOf(presented))
        decreases rest
      {
        var d :| d in rest;
        if devices[d].apiKeyHash == Some(HashOf(presented)) {
          return Some(d);
        }
        rest := rest - {d};
      }
      return None;
    }
  }

  // ---------- Runs ----------

  datatype Credential = ByCode(code: string) | ByOtk(token: string) | ByPermanentKey

  datatype Grant = Grant(credential: Credential, login: Login)

  datatype World = World(db: Db, grants: seq<Grant>)

  datatype Op =
    | CreateCode(code: string, now: int)
    | Exchange(code: string, login: Login, now: int, failAt: Option<nat>)
    | ExchangePermanent(valid: bool, login: Login, now: int, failAt: Option<nat>)
    | OtkLogin(token: string, login: Login, now: int, failAt: Option<nat>)
    | ExpireLive(now: int)
    | InsertOtk(token: string, now: int)
    | SetApproval(device: string, approval: Approval)
    | Revoke(device: string, now: int)

  ghost predicate Enabled(db: Db, op: Op) {
    op.Exchange? || op.ExchangePermanent? || op.OtkLogin? ==> Fresh(db, op.login)
  }

  function Granted(w: World, result: (Db, LoginResult), credential: Credential, login: Login): World {
    World(result.0, if result.1.LoggedIn? then w.grants + [Grant(credential, login)] else w.grants)
  }

  function Apply(w: World, op: Op): World {
    match op
    case CreateCode(code, now) => w.(db := CreateCodeSpec(w.db, code, now))
    case Exchange(code, login, now, failAt) => Granted(w, ExchangeSpec(w.db, code, login, now, failAt), ByCode(code), login)
    case ExchangePermanent(valid, login, now, failAt) =>
      Granted(w, PermanentKeySpec(w.db, valid, login, now, failAt), ByPermanentKey, login)
    case OtkLogin(token, login, now, failAt) =>
      Granted(w, OtkLoginSpec(w.db, token, login, now, failAt), ByOtk(token), login)
    case ExpireLive(now) => w.(db := ExpireLiveSpec(w.db, now))
    case InsertOtk(token, now) => w.(db := InsertOtkSpec(w.db, token, now))
    case SetApproval(device, approval) => w.(db := SetApprovalSpec(w.db, device, approval))
    case Revoke(device, now) => w.(db := RevokeSpec(w.db, device, now))
  }

  const EMPTY_WORLD: World := World(Db(map[], map[], map[], map[]), [])

  function After(w: World, ops: seq<Op>): World {
    if ops == [] then w else Apply(After(w, ops[..|ops| - 1]), ops[|ops| - 1])
  }

  ghost predicate Run(w: World, ops: seq<Op>) {
    ops != [] ==> Run(w, ops[..|ops| - 1]) && Enabled(After(w, ops[..|ops| - 1]).db, ops[|ops| - 1])
  }

  // ---------- The invariant ----------

  ghost predicate OtkConsumed(db: Db, token: string, device: string) {
    token in db.otks && db.otks[token].usedAt.Some? && db.otks[token].consumedBy == Some(device)
  }

  ghost predicate GrantKept(db: Db, g: Grant) {
    && g.login.device in db.devices
    && db.devices[g.login.device].apiKeyHash == Some(HashOf(g.login.apiKey))
    && db.devices[g.login.device].apiKeyLast4 == Last4(g.login.apiKey)
    && |g.login.apiKey| >= 4
    && g.login.session in db.sessions
    && db.sessions[g.login.session].device == Some(g.login.device)
    && (g.credential.ByCode? ==> g.credential.code in db.codes && db.codes[g.credential.code].usedAt.Some?)
    && (g.credential.ByOtk? ==> OtkConsumed(db, g.credential.token, g.login.device))
  }

  ghost predicate Unrelated(g: Grant, h: Grant) {
    && g.login.device != h.login.device && g.login.session != h.login.session && g.login.apiKey != h.login.apiKey
    && (g.credential == h.credential ==> g.credential.ByPermanentKey?)
  }

  /** Every session, device and consumed one-time key came from a grant. */
  ghost predicate Owned(db: Db, grants: seq<Grant>) {
    && (forall s :: s in db.sessions ==> exists i :: 0 <= i < |grants| && grants[i].login.session == s)
    && (forall d :: d in db.devices ==> exists i :: 0 <= i < |grants| && grants[i].login.device == d)
    && (forall t :: t in db.otks && db.otks[t].consumedBy.Some? ==>
          exists i :: 0 <= i < |grants| && grants[i].credential == ByOtk(t))
  }

  ghost predicate Inv(w: World) {
    && (forall i :: 0 <= i < |w.grants| ==> GrantKept(w.db, w.grants[i]))
    && (forall i, j :: 0 <= i < j < |w.grants| ==> Unrelated(w.grants[i], w.grants[j]))
    && Owned(w.db, w.grants)
  }

  /** What the steps other than a login leave alone, or only ever move one way. */
  ghost predicate Frame(db: Db, next: Db) {
    && next.sessions == db.sessions
    && next.devices.Keys == db.devices.Keys
    && (forall d :: d in db.devices ==>
          && next.devices[d].apiKeyHash == db.devices[d].apiKeyHash && next.devices[d].apiKeyLast4 == db.devices[d].apiKeyLast4
          && (db.devices[d].revokedAt.Some? ==> next.devices[d].revokedAt == db.devices[d].revokedAt))
    && (forall c :: c in db.codes ==> c in next.codes && (db.codes[c].usedAt.Some? ==> next.codes[c].usedAt.Some?))
    && (forall t :: t in db.otks ==>
          && t in next.otks && next.otks[t].consumedBy == db.otks[t].consumedBy
          && (db.otks[t].usedAt.Some? ==> next.otks[t].usedAt.Some?))
    && (forall t :: t in next.otks && t !in db.otks ==> next.otks[t].consumedBy.None?)
  }

  lemma OtherStepsFrame(w: World, op: Op)
    ensures |Apply(w, op).grants| == |w.grants| ==> Apply(w, op).grants == w.grants && Frame(w.db, Apply(w, op).db)
  {
  }

  lemma FrameKeepsInv(w: World, next: Db)
    requires Inv(w) && Frame(w.db, next)
    ensures Inv(World(next, w.grants))
  {
    forall i | 0 <= i < |w.grants| ensures GrantKept(next, w.grants[i]) {
      assert GrantKept(w.db, w.grants[i]);
    }
  }

  /** The credential is good for one login: where it names a row, the row is not yet used. */
  ghost predicate Unspent(db: Db, credential: Credential) {
    && (credential.ByCode? ==> credential.code in db.codes && db.codes[credential.code].usedAt.None?)
    && (credential.ByOtk? ==> credential.token in db.otks && db.otks[credential.token].usedAt.None?)
  }

  function Spend(db: Db, credential: Credential, device: string, now: int): Db
    requires credential.ByCode? ==> credential.code in db.codes
    requires credential.ByOtk? ==> credential.token in db.otks
  {
    match credential
    case ByCode(code) => db.(codes := db.codes[code := db.codes[code].(usedAt := Some(now))])
    case ByOtk(token) => db.(otks := db.otks[token := db.otks[token].(usedAt := Some(now), consumedBy := Some(device))])
    case ByPermanentKey => db
  }

  function OpCredential(op: Op): Credential
    requires op.Exchange? || op.ExchangePermanent? || op.OtkLogin?
  {
    match op
    case Exchange(code, _, _, _) => ByCode(code)
    case ExchangePermanent(_, _, _, _) => ByPermanentKey
    case OtkLogin(token, _, _, _) => ByOtk(token)
  }

  /** A login that goes through spends its credential and adds one session, one device and one key. */
  lemma LoginSteps(w: World, op: Op)
    requires |Apply(w, op).grants| != |w.grants|
    ensures op.Exchange? || op.ExchangePermanent? || op.OtkLogin?
    ensures Unspent(w.db, OpCredential(op))
    ensures Apply(w, op).db == WithLogin(Spend(w.db, OpCredential(op), op.login.device, op.now), op.login, op.now)
    ensures Apply(w, op).grants == w.grants + [Grant(OpCredential(op), op.login)]
  {
    hide WithLogin;
  }

  lemma LoginKeepsGrant(db: Db, credential: Credential, login: Login, now: int, g: Grant)
    requires Fresh(db, login) && Unspent(db, credential) && GrantKept(db, g)
    ensures GrantKept(WithLogin(Spend(db, credential, login.device, now), login, now), g)
    ensures Unrelated(g, Grant(credential, login))
  {
  }

  lemma LoginAdds(db: Db, credential: Credential, login: Login, now: int)
    requires Fresh(db, login) && Unspent(db, credential)
    ensures var next := WithLogin(Spend(db, credential, login.device, now), login, now);
      && GrantKept(next, Grant(credential, login))
      && next.sessions.Keys == db.sessions.Keys + {login.session}
      && next.devices.Keys == db.devices.Keys + {login.device}
      && (forall t :: t in next.otks && credential != ByOtk(t) ==> t in db.otks && next.otks[t] == db.otks[t])
  {
  }

  lemma LoginKeepsInv(w: World, credential: Credential, login: Login, now: int)
    requires Inv(w) && Fresh(w.db, login) && Unspent(w.db, credential)
    ensures Inv(World(WithLogin(Spend(w.db, credential, login.device, now), login, now), w.grants + [Grant(credential, login)]))
  {
    hide WithLogin, Spend, GrantKept, Unrelated, Fresh, Owned, OtkConsumed;
    var db := WithLogin(Spend(w.db, credential, login.device, now), login, now);
    var n, grants := |w.grants|, w.grants + [Grant(credential, login)];
    LoginKeepsOwners(w, credential, login, now);
    forall i | 0 <= i < n ensures GrantKept(db, grants[i]) && Unrelated(grants[i], grants[n]) {
      assert GrantKept(w.db, w.grants[i]);
      LoginKeepsGrant(w.db, credential, login, now, w.grants[i]);
    }
  }

  lemma LoginKeepsOwners(w: World, credential: Credential, login: Login, now: int)
    requires Owned(w.db, w.grants) && Fresh(w.db, login) && Unspent(w.db, credential)
    ensures var db := WithLogin(Spend(w.db, credential, login.device, now), login, now);
      GrantKept(db, Grant(credential, login)) && Owned(db, w.grants + [Grant(credential, login)])
  {
    hide WithLogin, Spend, GrantKept, Fresh, Owned, OtkConsumed;
    LoginAdds(w.db, credential, login, now);
    OwnersRemain(w, WithLogin(Spend(w.db, credential, login.device, now), login, now), w.grants + [Grant(credential, login)]);
  }

  /** Every row still has its grant. */
  lemma OwnersRemain(w: World, db: Db, grants: seq<Grant>)
    requires Owned(w.db, w.grants) && |grants| == |w.grants| + 1 && grants[..|w.grants|] == w.grants
    requires var g := grants[|w.grants|];
      && db.sessions.Keys == w.db.sessions.Keys + {g.login.session}
      && db.devices.Keys == w.db.devices.Keys + {g.login.device}
      && (forall t :: t in db.otks && g.credential != ByOtk(t) ==> t in w.db.otks && db.otks[t] == w.db.otks[t])
    ensures Owned(db, grants)
  {
    assert forall i :: 0 <= i < |w.grants| ==> grants[i] == w.grants[i];
    forall s | s in db.sessions ensures exists i :: 0 <= i < |grants| && grants[i].login.session == s {
      if s in w.db.sessions {
        var i :| 0 <= i < |w.grants| && w.grants[i].login.session == s;
        assert grants[i].login.session == s;
      }
    }
    forall d | d in db.devices ensures exists i :: 0 <= i < |grants| && grants[i].login.device == d {
      if d in w.db.devices {
        var i :| 0 <= i < |w.grants| && w.grants[i].login.device == d;
        assert grants[i].login.device == d;
      }
    }
    forall t | t in db.otks && db.otks[t].consumedBy.Some?
      ensures exists i :: 0 <= i < |grants| && grants[i].credential == ByOtk(t)
    {
      if grants[|w.grants|].credential != ByOtk(t) {
        var i :| 0 <= i < |w.grants| && w.grants[i].credential == ByOtk(t);
        assert grants[i].credential == ByOtk(t);
      }
    }
  }

  lemma InvStep(w: World, op: Op)
    requires Inv(w) && Enabled(w.db, op)
    ensures Inv(Apply(w, op))
  {
    hide Inv, Frame, Fresh, Apply;
    if |Apply(w, op).grants| == |w.grants| {
      OtherStepsFrame(w, op);
      FrameKeepsInv(w, Apply(w, op).db);
      assert Apply(w, op) == World(Apply(w, op).db, w.grants);
    } else {
      LoginSteps(w, op);
      LoginKeepsInv(w, OpCredential(op), op.login, op.now);
      var db := WithLogin(Spend(w.db, OpCredential(op), op.login.device, op.now), op.login, op.now);
      assert Apply(w, op) == World(db, w.grants + [Grant(OpCredential(op), op.login)]);
    }
  }

  lemma {:induction false} InvAlways(w: World, ops: seq<Op>)
    requires Inv(w) && Run(w, ops)
    ensures Inv(After(w, ops))
  {
    if ops != [] {
      InvAlways(w, ops[..|ops| - 1]);
      InvStep(After(w, ops[..|ops| - 1]), ops[|ops| - 1]);
    }
  }

  lemma {:induction false} InvReachable(ops: seq<Op>)
    requires Run(EMPTY_WORLD, ops)
    ensures Inv(After(EMPTY_WORLD, ops))
  {
    InvAlways(EMPTY_WORLD, ops);
  }

  // ---------- Who gets in ----------

  /** Whom a session's cookie speaks for, in any database. */
  lemma CookieAnswer(db: Db, session: string, device: string)
    ensures CookieAdmits(db, session) == Some(device) <==>
      && session in db.sessions && db.sessions[session].device == Some(device)
      && (device in db.devices ==> db.devices[device].revokedAt.None? && db.devices[device].approval.Approved?)
  {
  }

  /** Every session's device has a row, so the cookie path, which would wave a missing row through, admits a
      session exactly when the Bearer filter accepts its device. */
  lemma {:induction false} AuthPathsAgree(ops: seq<Op>)
    requires Run(EMPTY_WORLD, ops)
    ensures var db := After(EMPTY_WORLD, ops).db;
      forall s :: s in db.sessions ==>
        && db.sessions[s].device.Some? && db.sessions[s].device.value in db.devices
        && var row := db.devices[db.sessions[s].device.value];
           && (Eligible(db, db.sessions[s].device.value) <==> row.revokedAt.None? && row.approval.Approved?)
           && CookieAdmits(db, s) == (if row.revokedAt.None? && row.approval.Approved? then db.sessions[s].device else None)
  {
    InvReachable(ops);
    var w := After(EMPTY_WORLD, ops);
    forall s | s in w.db.sessions
      ensures w.db.sessions[s].device.Some? && w.db.sessions[s].device.value in w.db.devices
      ensures w.db.devices[w.db.sessions[s].device.value].apiKeyHash.Some?
    {
      var i :| 0 <= i < |w.grants| && w.grants[i].login.session == s;
      assert GrantKept(w.db, w.grants[i]);
    }
  }

  /** A device let in by its key always has a session to act in. */
  lemma DevicesHaveSessions(ops: seq<Op>, device: string)
    requires Run(EMPTY_WORLD, ops) && device in After(EMPTY_WORLD, ops).db.devices
    ensures var db := After(EMPTY_WORLD, ops).db;
      exists s :: s in db.sessions && db.sessions[s].device == Some(device)
  {
    InvReachable(ops);
    var w := After(EMPTY_WORLD, ops);
    var i := GrantOf(w, device);
    assert w.grants[i].login.session in w.db.sessions;
  }

  /** A key belongs to one device at most, and the pre-filter on its last four characters never hides that device. */
  lemma {:induction false} KeysIdentifyDevices(ops: seq<Op>, d: string, e: string, key: string)
    requires Run(EMPTY_WORLD, ops)
    ensures var db := After(EMPTY_WORLD, ops).db;
      && (KeyMatches(db, d, key) && KeyMatches(db, e, key) ==> d == e)
      && (KeyMatches(db, d, key) ==> |key| >= 4 && db.devices[d].apiKeyLast4 == Last4(key))
  {
    InvReachable(ops);
    var w := After(EMPTY_WORLD, ops);
    if KeyMatches(w.db, d, key) {
      var i := GrantOf(w, d);
      if KeyMatches(w.db, e, key) {
        var j := GrantOf(w, e);
        GrantsDiffer(w, i, j);
      }
    }
  }

  /** In every reachable database a key lets in exactly the device it was issued to, if that device is approved and
      not revoked. */
  lemma BearerExact(ops: seq<Op>, presented: string, answer: Option<string>, d: string)
    requires Run(EMPTY_WORLD, ops) && BearerAnswer(After(EMPTY_WORLD, ops).db, presented, answer)
    ensures var w := After(EMPTY_WORLD, ops);
      answer == Some(d) <==>
        && d in w.db.devices && w.db.devices[d].revokedAt.None? && w.db.devices[d].approval.Approved?
        && exists i :: 0 <= i < |w.grants| && w.grants[i].login.device == d && w.grants[i].login.apiKey == presented
  {
    hide After, Run;
    KeysIdentifyDevices(ops, d, answer.GetOr(d), presented);
    InvReachable(ops);
    var w := After(EMPTY_WORLD, ops);
    KeyIsGranted(w, d, presented);
  }

  lemma KeyIsGranted(w: World, d: string, key: string)
    requires Inv(w)
    ensures KeyMatches(w.db, d, key) <==>
      exists i :: 0 <= i < |w.grants| && w.grants[i].login.device == d && w.grants[i].login.apiKey == key
  {
    if d in w.db.devices {
      var i := GrantOf(w, d);
    }
    if i :| 0 <= i < |w.grants| && w.grants[i].login.device == d && w.grants[i].login.apiKey == key {
      assert GrantKept(w.db, w.grants[i]);
    }
  }

  lemma GrantOf(w: World, device: string) returns (i: nat)
    requires Inv(w) && device in w.db.devices
    ensures i < |w.grants| && w.grants[i].login.device == device && GrantKept(w.db, w.grants[i])
  {
    i :| 0 <= i < |w.grants| && w.grants[i].login.device == device;
  }

  /** What one step can do to a device that is there: revocation is never lifted, and only an approval approves. */
  lemma DeviceStep(w: World, op: Op, device: string)
    requires Enabled(w.db, op) && device in w.db.devices
    ensures var next := Apply(w, op).db;
      && device in next.devices
      && (w.db.devices[device].revokedAt.Some? ==> next.devices[device].revokedAt == w.db.devices[device].revokedAt)
      && (next.devices[device].approval == w.db.devices[device].approval
          || op == SetApproval(device, next.devices[device].approval))
  {
  }

  /** Once revoked, a device is admitted by neither path ever again, whatever is approved or paired later. */
  lemma {:induction false} RevokedForever(w: World, ops: seq<Op>, device: string)
    requires Run(w, ops)
    requires device in w.db.devices && w.db.devices[device].revokedAt.Some?
    ensures var db := After(w, ops).db;
      && device in db.devices && db.devices[device].revokedAt == w.db.devices[device].revokedAt
      && !Eligible(db, device)
      && (forall s :: CookieAdmits(db, s) != Some(device))
  {
    if ops != [] {
      RevokedForever(w, ops[..|ops| - 1], device);
      DeviceStep(After(w, ops[..|ops| - 1]), ops[|ops| - 1], device);
      NotAdmitted(After(w, ops).db, device);
    }
  }

  lemma NotAdmitted(db: Db, device: string)
    requires device in db.devices && (db.devices[device].revokedAt.Some? || !db.devices[device].approval.Approved?)
    ensures !Eligible(db, device) && forall s :: CookieAdmits(db, s) != Some(device)
  {
  }

  /** A device that is pending or rejected stays out until an approval of that very device. */
  lemma {:induction false} OutUntilApproved(w: World, ops: seq<Op>, device: string)
    requires Run(w, ops)
    requires device in w.db.devices && !w.db.devices[device].approval.Approved?
    requires SetApproval(device, Approved) !in ops
    ensures var db := After(w, ops).db;
      && device in db.devices && !db.devices[device].approval.Approved?
      && !Eligible(db, device)
      && (forall s :: CookieAdmits(db, s) != Some(device))
  {
    if ops != [] {
      OutUntilApproved(w, ops[..|ops| - 1], device);
      DeviceStep(After(w, ops[..|ops| - 1]), ops[|ops| - 1], device);
      NotAdmitted(After(w, ops).db, device);
    }
  }

  lemma {:induction false} AfterFirst(w: World, op: Op, ops: seq<Op>)
    ensures Run(w, [op] + ops) <==> Enabled(w.db, op) && Run(Apply(w, op), ops)
    ensures After(w, [op] + ops) == After(Apply(w, op), ops)
  {
    var all := [op] + ops;
    if ops == [] {
      assert all[..0] == [] && all == [op];
    } else {
      AfterFirst(w, op, ops[..|ops| - 1]);
      assert all[..|all| - 1] == [op] + ops[..|ops| - 1];
    }
  }

  /** Revoking stamps that device, the first time, and changes nothing else; an unknown device is left unknown. */
  lemma RevokeRevokes(w: World, device: string, now: int)
    ensures var next := Apply(w, Revoke(device, now));
      if device !in w.db.devices then next == w
      else
        var old_ := w.db.devices[device];
        next == w.(db := w.db.(devices := w.db.devices[device := old_.(revokedAt := Some(old_.revokedAt.GetOr(now)))]))
  {
  }

  /** From the moment it is revoked, whatever it was before and whatever follows, the device is out. */
  lemma RevokedOut(w: World, device: string, now: int, ops: seq<Op>)
    requires device in w.db.devices && Run(w, [Revoke(device, now)] + ops)
    ensures var db := After(w, [Revoke(device, now)] + ops).db;
      && device in db.devices && db.devices[device].revokedAt == Some(w.db.devices[device].revokedAt.GetOr(now))
      && !Eligible(db, device)
      && (forall s :: CookieAdmits(db, s) != Some(device))
  {
    hide Apply, After, Run;
    AfterFirst(w, Revoke(device, now), ops);
    RevokeRevokes(w, device, now);
    RevokedForever(Apply(w, Revoke(device, now)), ops, device);
  }

  /** Approving or rejecting sets that device's approval and changes nothing else. */
  lemma ApprovalSets(w: World, device: string, approval: Approval)
    ensures var next := Apply(w, SetApproval(device, approval));
      if device !in w.db.devices then next == w
      else next == w.(db := w.db.(devices := w.db.devices[device := w.db.devices[device].(approval := approval)]))
  {
  }

  /** So approving a device that is not revoked lets its sessions and its key in. */
  lemma {:induction false} ApprovedIn(ops: seq<Op>, device: string, session: string)
    requires Run(EMPTY_WORLD, ops)
    ensures var before := After(EMPTY_WORLD, ops).db;
      var db := Apply(After(EMPTY_WORLD, ops), SetApproval(device, Approved)).db;
      device in before.devices && before.devices[device].revokedAt.None? ==>
        && Eligible(db, device)
        && (session in before.sessions && before.sessions[session].device == Some(device) ==>
              CookieAdmits(db, session) == Some(device))
  {
    hide After, Run, Inv;
    InvReachable(ops);
    var w := After(EMPTY_WORLD, ops);
    if device in w.db.devices {
      var i := GrantOf(w, device);
    }
    ApprovalSets(w, device, Approved);
  }

  /** A login that goes through lets its session and its key in exactly if it came with approval. */
  lemma LoginAdmits(w: World, op: Op)
    requires |Apply(w, op).grants| != |w.grants|
    ensures op.Exchange? || op.ExchangePermanent? || op.OtkLogin?
    ensures var db := Apply(w, op).db;
      && CookieAdmits(db, op.login.session) == (if op.login.approval.Approved? then Some(op.login.device) else None)
      && (Eligible(db, op.login.device) <==> op.login.approval.Approved?)
      && KeyMatches(db, op.login.device, op.login.apiKey)
      && db.sessions[op.login.session] == SessionRow(op.now, Some(op.login.device))
      && db.devices[op.login.device].approval == op.login.approval && db.devices[op.login.device].revokedAt.None?
  {
    hide Unspent;
    LoginSteps(w, op);
  }

  /** And if it did not, its device stays out until it is approved. */
  lemma PendingLogin(w: World, op: Op, ops: seq<Op>)
    requires Run(w, [op] + ops) && |Apply(w, op).grants| != |w.grants|
    ensures op.Exchange? || op.ExchangePermanent? || op.OtkLogin?
    ensures !op.login.approval.Approved? && SetApproval(op.login.device, Approved) !in ops ==>
      var db := After(w, [op] + ops).db;
      !Eligible(db, op.login.device) && forall s :: CookieAdmits(db, s) != Some(op.login.device)
  {
    hide Apply, After, Run, CookieAdmits, Eligible;
    AfterFirst(w, op, ops);
    LoginAdmits(w, op);
    if !op.login.approval.Approved? && SetApproval(op.login.device, Approved) !in ops {
      OutUntilApproved(Apply(w, op), ops, op.login.device);
    }
  }

  // ---------- What a login is answered ----------

  /** A code is accepted if it is there, unused and not past its time, and none of the seven statements fails. */
  lemma ExchangeAnswer(db: Db, code: string, login: Login, now: int, failAt: Option<nat>)
    ensures var (next, r) := ExchangeSpec(db, code, login, now, failAt);
      && (r.LoggedIn? <==>
            && code in db.codes && db.codes[code].usedAt.None? && now <= db.codes[code].expiresAt
            && (failAt.Some? ==> failAt.value > 6))
      && (r.CredentialInvalid? <==>
            && failAt != Some(0)
            && !(code in db.codes && db.codes[code].usedAt.None? && now <= db.codes[code].expiresAt))
      && (!r.LoggedIn? ==> next == db)
  {
  }

  /** A one-time key is accepted if it is there, unused and before its time, and none of the nine statements fails;
      a failure of the statements that consume it is answered as if it were not. */
  lemma OtkAnswer(db: Db, token: string, login: Login, now: int, failAt: Option<nat>)
    ensures var (next, r) := OtkLoginSpec(db, token, login, now, failAt);
      && (r.LoggedIn? <==>
            && token in db.otks && db.otks[token].usedAt.None? && now < db.otks[token].expiresAt
            && (failAt.Some? ==> failAt.value > 8))
      && (r.CredentialInvalid? <==>
            && failAt != Some(0)
            && (!(token in db.otks && db.otks[token].usedAt.None? && now < db.otks[token].expiresAt)
                || failAt == Some(1) || failAt == Some(2)))
      && (!r.LoggedIn? ==> next == db)
  {
  }

  lemma PermanentKeyAnswer(db: Db, valid: bool, login: Login, now: int, failAt: Option<nat>)
    ensures var (next, r) := PermanentKeySpec(db, valid, login, now, failAt);
      && (r.LoggedIn? <==> valid && (failAt.Some? ==> failAt.value > 5))
      && (r.CredentialInvalid? <==> !valid)
      && (!r.LoggedIn? ==> next == db)
  {
  }

  lemma {:induction false} CodeKept(w: World, ops: seq<Op>, code: string)
    requires code in w.db.codes
    requires forall i :: 0 <= i < |ops| && ops[i].Exchange? ==> ops[i].code != code
    ensures var db := After(w, ops).db; code in db.codes && db.codes[code] == w.db.codes[code]
  {
    if ops != [] {
      CodeKept(w, ops[..|ops| - 1], code);
    }
  }

  /** A new code works for 300 seconds and not a second longer, whatever else happens before it is tried. */
  lemma {:induction false} CodeLifetime(w: World, code: string, at: int, ops: seq<Op>, login: Login, now: int)
    requires code !in w.db.codes
    requires forall i :: 0 <= i < |ops| && ops[i].Exchange? ==> ops[i].code != code
    ensures var before := After(Apply(w, CreateCode(code, at)), ops);
      ExchangeSpec(before.db, code, login, now, None).1 == if now <= at + 300 then LoggedIn else CredentialInvalid
  {
    CodeKept(Apply(w, CreateCode(code, at)), ops, code);
  }

  lemma {:induction false} OtkKept(w: World, ops: seq<Op>, token: string)
    requires token in w.db.otks
    requires forall i :: 0 <= i < |ops| ==> !ops[i].ExpireLive? && (ops[i].OtkLogin? ==> ops[i].token != token)
    ensures var db := After(w, ops).db; token in db.otks && db.otks[token] == w.db.otks[token]
  {
    if ops != [] {
      OtkKept(w, ops[..|ops| - 1], token);
    }
  }

  /** A new one-time key works for less than 1800 seconds, if it is not regenerated before it is tried. */
  lemma {:induction false} OtkLifetime(w: World, token: string, at: int, ops: seq<Op>, login: Login, now: int)
    requires token !in w.db.otks
    requires forall i :: 0 <= i < |ops| ==> !ops[i].ExpireLive? && (ops[i].OtkLogin? ==> ops[i].token != token)
    ensures var before := After(Apply(w, InsertOtk(token, at)), ops);
      OtkLoginSpec(before.db, token, login, now, None).1 == if now < at + 1800 then LoggedIn else CredentialInvalid
  {
    OtkKept(Apply(w, InsertOtk(token, at)), ops, token);
  }

  /** Expiring marks exactly the live keys used, and leaves every other key as it is. */
  lemma ExpiryExact(w: World, now: int)
    ensures var next := Apply(w, ExpireLive(now));
      && next == w.(db := w.db.(otks := next.db.otks)) && next.db.otks.Keys == w.db.otks.Keys
      && forall t :: t in w.db.otks ==>
           var row := w.db.otks[t];
           next.db.otks[t] == if row.usedAt.None? && now < row.expiresAt then row.(usedAt := Some(now)) else row
  {
  }

  // ---------- One credential, one device ----------

  /** A pairing code or one-time key creates at most one device over the whole run, and every device created
      still has its session and its key. */
  lemma {:induction false} CredentialOnce(ops: seq<Op>)
    requires Run(EMPTY_WORLD, ops)
    ensures var w := After(EMPTY_WORLD, ops);
      && (forall i, j :: 0 <= i < j < |w.grants| && !w.grants[i].credential.ByPermanentKey? ==>
            w.grants[i].credential != w.grants[j].credential)
      && (forall i, j :: 0 <= i < j < |w.grants| ==> w.grants[i].login.device != w.grants[j].login.device)
      && (forall i :: 0 <= i < |w.grants| ==>
            var login := w.grants[i].login;
            && login.session in w.db.sessions && w.db.sessions[login.session].device == Some(login.device)
            && KeyMatches(w.db, login.device, login.apiKey))
      && (forall d :: d in w.db.devices <==> exists i :: 0 <= i < |w.grants| && w.grants[i].login.device == d)
  {
    InvReachable(ops);
    var w := After(EMPTY_WORLD, ops);
    forall i, j | 0 <= i < j < |w.grants| ensures Unrelated(w.grants[i], w.grants[j]) {}
    forall i | 0 <= i < |w.grants| ensures GrantKept(w.db, w.grants[i]) {}
  }

  /** The rows of one-time keys stamped with a device are in bijection with the devices that one-time keys
      created; a key marked used by regeneration is not among them. */
  lemma OtkBijection(ops: seq<Op>, t: string, u: string, d: string, e: string)
    requires Run(EMPTY_WORLD, ops)
    ensures var w := After(EMPTY_WORLD, ops);
      && (OtkConsumed(w.db, t, d) <==>
            exists i :: 0 <= i < |w.grants| && w.grants[i].credential == ByOtk(t) && w.grants[i].login.device == d)
      && (OtkConsumed(w.db, t, d) && OtkConsumed(w.db, t, e) ==> d == e)
      && (OtkConsumed(w.db, t, d) && OtkConsumed(w.db, u, d) ==> t == u)
      && (t in w.db.otks && w.db.otks[t].consumedBy == Some(d) ==> OtkConsumed(w.db, t, d))
  {
    InvReachable(ops);
    ConsumedByGrant(After(EMPTY_WORLD, ops), t, d);
    ConsumedOnce(After(EMPTY_WORLD, ops), t, u, d);
  }

  lemma ConsumedByGrant(w: World, t: string, d: string)
    requires Inv(w)
    ensures OtkConsumed(w.db, t, d) <==>
      exists i :: 0 <= i < |w.grants| && w.grants[i].credential == ByOtk(t) && w.grants[i].login.device == d
    ensures t in w.db.otks && w.db.otks[t].consumedBy == Some(d) ==> OtkConsumed(w.db, t, d)
  {
    if t in w.db.otks && w.db.otks[t].consumedBy.Some? {
      var i := OtkGrantOf(w, t);
    }
    if i :| 0 <= i < |w.grants| && w.grants[i].credential == ByOtk(t) && w.grants[i].login.device == d {
      assert GrantKept(w.db, w.grants[i]);
    }
  }

  lemma ConsumedOnce(w: World, t: string, u: string, d: string)
    requires Inv(w)
    ensures OtkConsumed(w.db, t, d) && OtkConsumed(w.db, u, d) ==> t == u
  {
    if OtkConsumed(w.db, t, d) && OtkConsumed(w.db, u, d) {
      var i := OtkGrantOf(w, t);
      var j := OtkGrantOf(w, u);
      GrantsDiffer(w, i, j);
    }
  }

  lemma GrantsDiffer(w: World, i: nat, j: nat)
    requires Inv(w) && i < |w.grants| && j < |w.grants|
    ensures i != j ==> Unrelated(w.grants[i], w.grants[j])
  {
    assert j < i ==> Unrelated(w.grants[j], w.grants[i]);
  }

  lemma OtkGrantOf(w: World, token: string) returns (i: nat)
    requires Inv(w) && token in w.db.otks && w.db.otks[token].consumedBy.Some?
    ensures i < |w.grants| && w.grants[i].credential == ByOtk(token)
    ensures OtkConsumed(w.db, token, w.grants[i].login.device)
  {
    i :| 0 <= i < |w.grants| && w.grants[i].credential == ByOtk(token);
    assert GrantKept(w.db, w.grants[i]);
  }

  /** A key that regeneration has marked used is never consumed afterwards. */
  lemma {:induction false} RegeneratedNeverConsumed(w: World, ops: seq<Op>, token: string)
    requires Run(w, ops)
    requires token in w.db.otks && w.db.otks[token].usedAt.Some?
    ensures var db := After(w, ops).db;
      token in db.otks && db.otks[token].usedAt.Some? && db.otks[token].consumedBy == w.db.otks[token].consumedBy
  {
    if ops != [] {
      RegeneratedNeverConsumed(w, ops[..|ops| - 1], token);
      OtkStep(After(w, ops[..|ops| - 1]), ops[|ops| - 1], token);
    }
  }

  lemma OtkStep(w: World, op: Op, token: string)
    requires token in w.db.otks && w.db.otks[token].usedAt.Some?
    ensures var next := Apply(w, op).db;
      token in next.otks && next.otks[token].usedAt.Some? && next.otks[token].consumedBy == w.db.otks[token].consumedBy
  {
  }

  // ---------- Failure and retry ----------

  /** A login that does not go through leaves all four tables as they were, wherever it failed; and if it was
      not the credential's fault, the same credential then works until it expires. */
  lemma FailedLoginRetries(w: World, op: Op, login: Login, now: int)
    requires op.Exchange? || op.OtkLogin?
    requires Enabled(w.db, op) && Fresh(w.db, login)
    requires if op.Exchange? then CodeUsable(w.db, op.code, op.now) && CodeUsable(w.db, op.code, now)
             else OtkLive(w.db, op.token, op.now) && OtkLive(w.db, op.token, now)
    ensures |Apply(w, op).grants| == |w.grants| <==>
      op.failAt.Some? && op.failAt.value < (if op.Exchange? then EXCHANGE_STATEMENTS else OTK_STATEMENTS)
    ensures |Apply(w, op).grants| == |w.grants| ==>
      && Apply(w, op) == w
      && Apply(Apply(w, op), Retry(op, login, now)).grants == w.grants + [Grant(OpCredential(op), login)]
  {
    hide WithLogin;
  }

  function Retry(op: Op, login: Login, now: int): Op
    requires op.Exchange? || op.OtkLogin?
  {
    if op.Exchange? then Exchange(op.code, login, now, None) else OtkLogin(op.token, login, now, None)
  }

  // ---------- One live key at a time ----------

  function Inserted(ops: seq<Op>): set<string> {
    set i | 0 <= i < |ops| && ops[i].InsertOtk? :: ops[i].token
  }

  lemma LiveStep(w: World, op: Op, token: string, now: int)
    requires OtkLive(Apply(w, op).db, token, now)
    ensures OtkLive(w.db, token, now) || (op.InsertOtk? && op.token == token)
  {
  }

  /** A key live after some steps was live before them or was inserted by one of them. */
  lemma {:induction false} LiveComesFrom(w: World, ops: seq<Op>, token: string, now: int)
    requires OtkLive(After(w, ops).db, token, now)
    ensures OtkLive(w.db, token, now) || token in Inserted(ops)
  {
    if ops != [] {
      var init, last := ops[..|ops| - 1], ops[|ops| - 1];
      LiveStep(After(w, init), last, token, now);
      if OtkLive(After(w, init).db, token, now) {
        LiveComesFrom(w, init, token, now);
        if token in Inserted(init) {
          var i :| 0 <= i < |init| && init[i].InsertOtk? && init[i].token == token;
          assert ops[i] == init[i];
        }
      } else {
        assert ops[|ops| - 1].token in Inserted(ops);
      }
    }
  }

  /** Generation expires the live keys in one statement, whose failure it ignores, and inserts the new one in
      another, with any steps whatever in between. The new key is then the only live one exactly when no other
      key is still live that those steps inserted or that the failed statement should have expired. Calls that
      do not overlap insert none. */
  lemma {:induction false} OneLiveKey(w: World, expiredAt: int, expireFails: bool, between: seq<Op>, token: string, now: int)
    requires expiredAt <= now
    requires token !in After(if expireFails then w else Apply(w, ExpireLive(expiredAt)), between).db.otks
    ensures var before := After(if expireFails then w else Apply(w, ExpireLive(expiredAt)), between);
      var live := LiveOtks(Apply(before, InsertOtk(token, now)).db, now);
      var suspects := Inserted(between) + if expireFails then LiveOtks(w.db, now) else {};
      && token in live
      && live <= {token} + suspects
      && (live == {token} <==> forall k :: k in suspects ==> !OtkLive(before.db, k, now))
  {
    var start := if expireFails then w else Apply(w, ExpireLive(expiredAt));
    var before := After(start, between);
    var suspects := Inserted(between) + if expireFails then LiveOtks(w.db, now) else {};
    var live := LiveOtks(Apply(before, InsertOtk(token, now)).db, now);
    forall t | t in live && t != token ensures t in suspects && OtkLive(before.db, t, now) {
      LiveStep(before, InsertOtk(token, now), t, now);
      LiveComesFrom(start, between, t, now);
    }
    forall k | OtkLive(before.db, k, now) ensures k in live {
    }
  }

  /** A generation whose first statement fails leaves the key before it live, with no other call in between. */
  lemma FailedExpiry()
    ensures var ops := [ExpireLive(0), InsertOtk("a", 0), InsertOtk("b", 1)];
      && Run(EMPTY_WORLD, ops)
      && LiveOtks(After(EMPTY_WORLD, ops).db, 1) == {"a", "b"}
  {
    var r0: seq<Op> := [];
    assert Run(EMPTY_WORLD, r0) && After(EMPTY_WORLD, r0) == EMPTY_WORLD;
    var r1 := r0 + [ExpireLive(0)];
    RunMore(EMPTY_WORLD, r0, ExpireLive(0));
    var r2 := r1 + [InsertOtk("a", 0)];
    RunMore(EMPTY_WORLD, r1, InsertOtk("a", 0));
    var r3 := r2 + [InsertOtk("b", 1)];
    RunMore(EMPTY_WORLD, r2, InsertOtk("b", 1));
    assert r3 == [ExpireLive(0), InsertOtk("a", 0), InsertOtk("b", 1)];
  }

  lemma RunMore(w: World, ops: seq<Op>, op: Op)
    requires Run(w, ops) && Enabled(After(w, ops).db, op)
    ensures Run(w, ops + [op]) && After(w, ops + [op]) == Apply(After(w, ops), op)
  {
    assert (ops + [op])[..|ops|] == ops;
  }

  /** Two overlapping generations leave two live keys. */
  lemma OverlappingGenerations()
    ensures var ops := [ExpireLive(0), ExpireLive(0), InsertOtk("a", 0), InsertOtk("b", 0)];
      && Run(EMPTY_WORLD, ops)
      && LiveOtks(After(EMPTY_WORLD, ops).db, 0) == {"a", "b"}
  {
    var r0: seq<Op> := [];
    assert Run(EMPTY_WORLD, r0) && After(EMPTY_WORLD, r0) == EMPTY_WORLD;
    var r1 := r0 + [ExpireLive(0)];
    RunMore(EMPTY_WORLD, r0, ExpireLive(0));
    var r2 := r1 + [ExpireLive(0)];
    RunMore(EMPTY_WORLD, r1, ExpireLive(0));
    var r3 := r2 + [InsertOtk("a", 0)];
    RunMore(EMPTY_WORLD, r2, InsertOtk("a", 0));
    var r4 := r3 + [InsertOtk("b", 0)];
    RunMore(EMPTY_WORLD, r3, InsertOtk("b", 0));
    assert r4 == [ExpireLive(0), ExpireLive(0), InsertOtk("a", 0), InsertOtk("b", 0)];
  }
}
