/**
 API keys: creation, lookup by prefix, revocation and soft deletion.

 The first half gives each operation as one indivisible step on the table and says what any history of such steps
 keeps. The second half splits `revoke` and `delete` into the steps of a transaction that holds a row lock until it
 commits, and shows that every interleaving is such a history, in commit order.
 */
module ApiKeys {
  import opened Wrappers

  type Pk = nat
  type User = nat
  type Time = int

  const PREFIX_LENGTH := 8
  const TOKEN_LENGTH := 43
  const ATTEMPTS := 3
  const DEBOUNCE_SECONDS := 300

  datatype KeyRow = KeyRow(
    owner: User,
    prefix: string,
    secret: string,
    isActive: bool,
    revokedAt: Option<Time>,
    lastUsedAt: Option<Time>,
    updatedAt: Time,
    updatedBy: Option<User>)

  type Rows = map<Pk, KeyRow>

  /** `secrets.token_urlsafe(32)`. */
  predicate IsToken(s: string) {
    |s| == TOKEN_LENGTH
    && forall k :: 0 <= k < |s| ==> 'a' <= s[k] <= 'z' || 'A' <= s[k] <= 'Z' || '0' <= s[k] <= '9' || s[k] == '-' || s[k] == '_'
  }

  predicate IsAscii(s: string) {
    forall k :: 0 <= k < |s| ==> s[k] as int < 128
  }

  // ---------------------------------------------------------------- the operations

  function NewRow(owner: User, token: string, creator: Option<User>, now: Time): KeyRow
    requires IsToken(token)
  {
    KeyRow(owner, token[..PREFIX_LENGTH], token, true, None, None, now, creator)
  }

  predicate PrefixTaken(rows: Rows, prefix: string) {
    exists pk :: pk in rows && rows[pk].prefix == prefix
  }

  predicate Collides(rows: Rows, token: string) {
    |token| >= PREFIX_LENGTH && PrefixTaken(rows, token[..PREFIX_LENGTH])
  }

  datatype RevokeResult = RevokedNow | AlreadyRevoked | NoSuchKey

  function RevokeResultOf(rows: Rows, pk: Pk): RevokeResult {
    if pk !in rows || !rows[pk].isActive then NoSuchKey
    else if rows[pk].revokedAt.Some? then AlreadyRevoked
    else RevokedNow
  }

  function RevokedRow(row: KeyRow, user: Option<User>, now: Time): KeyRow {
    row.(revokedAt := Some(now), updatedAt := now, updatedBy := user)
  }

  function AfterRevoke(rows: Rows, pk: Pk, user: Option<User>, now: Time): Rows {
    if RevokeResultOf(rows, pk) == RevokedNow then rows[pk := RevokedRow(rows[pk], user, now)] else rows
  }

  function DeletedRow(row: KeyRow, user: Option<User>, now: Time): KeyRow {
    row.(isActive := false, updatedAt := now, updatedBy := if user.Some? then user else row.updatedBy)
  }

  predicate CanDelete(rows: Rows, pk: Pk) {
    pk in rows && rows[pk].isActive
  }

  function AfterDelete(rows: Rows, pk: Pk, user: Option<User>, now: Time): Rows {
    if CanDelete(rows, pk) then rows[pk := DeletedRow(rows[pk], user, now)] else rows
  }

  function AfterUse(rows: Rows, pk: Pk, now: Time): Rows {
    if pk in rows then rows[pk := rows[pk].(lastUsedAt := Some(now))] else rows
  }

  datatype AuthResult =
    | NotAttempted
    | InvalidKey
    | ComparisonRaises
    | UserDisabled
    | Accepted(pk: Pk)

  predicate Live(row: KeyRow) {
    row.isActive && row.revokedAt.None?
  }

  ghost predicate LiveAt(rows: Rows, prefix: string, pk: Pk) {
    pk in rows && Live(rows[pk]) && rows[pk].prefix == prefix
  }

  ghost function FindByPrefix(rows: Rows, prefix: string): Option<Pk> {
    if exists pk :: LiveAt(rows, prefix, pk) then
      var pk :| LiveAt(rows, prefix, pk);
      Some(pk)
    else None
  }

  /** `authenticate`; `enabled` holds the users whose account is active. */
  ghost function Authenticate(rows: Rows, enabled: set<User>, key: string): AuthResult {
    if key == "" then NotAttempted
    else if |key| < PREFIX_LENGTH then InvalidKey
    else
      var found := FindByPrefix(rows, key[..PREFIX_LENGTH]);
      if found.None? || found.value !in rows then InvalidKey
      else if !IsAscii(rows[found.value].secret) || !IsAscii(key) then ComparisonRaises
      else if rows[found.value].secret != key then InvalidKey
      else if rows[found.value].owner !in enabled then UserDisabled
      else Accepted(found.value)
  }

  // ---------------------------------------------------------------- what the prefix index relies on

  ghost predicate Sane(rows: Rows) {
    && (forall pk :: pk in rows ==> IsToken(rows[pk].secret) && rows[pk].prefix == rows[pk].secret[..PREFIX_LENGTH])
    && (forall p, q :: p in rows && q in rows && rows[p].prefix == rows[q].prefix ==> p == q)
  }

  lemma OneLiveRow(rows: Rows, prefix: string, pk: Pk)
    requires Sane(rows) && LiveAt(rows, prefix, pk)
    ensures FindByPrefix(rows, prefix) == Some(pk)
  {
    hide IsToken;
  }

  ghost predicate HasSecret(rows: Rows, key: string, pk: Pk) {
    pk in rows && Live(rows[pk]) && rows[pk].secret == key
  }

  /** The specification: compare the key with the secret of every live row. */
  ghost function ScanAll(rows: Rows, enabled: set<User>, key: string): AuthResult {
    if key == "" then NotAttempted
    else if exists pk :: HasSecret(rows, key, pk) then
      var pk :| HasSecret(rows, key, pk);
      if rows[pk].owner in enabled then Accepted(pk) else UserDisabled
    else InvalidKey
  }

  ghost predicate HitsLivePrefix(rows: Rows, key: string) {
    |key| >= PREFIX_LENGTH && exists pk :: LiveAt(rows, key[..PREFIX_LENGTH], pk)
  }

  /**
   The lookup by prefix answers as the full scan does, except for a key outside ASCII whose first eight characters are
   a live prefix: there the comparison raises, where the scan finds no row.
   */
  lemma LookupAgreesWithScanIff(rows: Rows, enabled: set<User>, key: string)
    requires Sane(rows)
    ensures Authenticate(rows, enabled, key) == ScanAll(rows, enabled, key)
            <==> IsAscii(key) || !HitsLivePrefix(rows, key)
    ensures !IsAscii(key) && HitsLivePrefix(rows, key) ==>
              Authenticate(rows, enabled, key) == ComparisonRaises && ScanAll(rows, enabled, key) == InvalidKey
  {
    hide IsToken, IsAscii;
    forall pk | pk in rows ensures IsAscii(rows[pk].secret) && |rows[pk].secret| == TOKEN_LENGTH {
      TokensAreAscii(rows[pk].secret);
    }
    forall pk | HasSecret(rows, key, pk)
      ensures |key| == TOKEN_LENGTH && IsAscii(key) && LiveAt(rows, key[..PREFIX_LENGTH], pk)
    {
    }
    if |key| >= PREFIX_LENGTH && HitsLivePrefix(rows, key) {
      var hit := FindByPrefix(rows, key[..PREFIX_LENGTH]).value;
      assert LiveAt(rows, key[..PREFIX_LENGTH], hit);
      assert forall pk :: HasSecret(rows, key, pk) ==> pk == hit;
      assert rows[hit].secret == key ==> HasSecret(rows, key, hit);
    }
  }

  /** One such key: the eight characters that name a live row, then one outside ASCII. */
  lemma LookupCanRaise(token: string, owner: User, now: Time)
    requires IsToken(token)
    ensures var rows, key := map[0 := NewRow(owner, token, None, now)], token[..PREFIX_LENGTH] + "\U{e9}";
            Sane(rows) && Authenticate(rows, {owner}, key) == ComparisonRaises && ScanAll(rows, {owner}, key) == InvalidKey
  {
    hide IsToken;
    TokensAreAscii(token);
    var rows, key := map[0 := NewRow(owner, token, None, now)], token[..PREFIX_LENGTH] + "\U{e9}";
    assert key[..PREFIX_LENGTH] == token[..PREFIX_LENGTH] && key[PREFIX_LENGTH] == '\U{e9}';
    assert LiveAt(rows, key[..PREFIX_LENGTH], 0);
    LookupAgreesWithScanIff(rows, {owner}, key);
  }

  lemma TokensAreAscii(s: string)
    requires IsToken(s)
    ensures IsAscii(s) && |s| == TOKEN_LENGTH
  {
    forall k | 0 <= k < |s| ensures s[k] as int < 128 {
      assert 'a' <= s[k] <= 'z' || 'A' <= s[k] <= 'Z' || '0' <= s[k] <= '9' || s[k] == '-' || s[k] == '_';
    }
  }

  const UPPERS := "ABCDEFGHIJKLMNOPQRSTUVWXYZ"
  const LOWERS := "abcdefghijklmnopqrstuvwxyz"
  const DIGITS := "0123456789"
  const BASE64_URL := UPPERS + LOWERS + DIGITS + "-_"

  /** The tokens are the texts of 43 characters over the alphabet of section 5 of RFC 4648. */
  lemma TokensAreBase64Url(s: string)
    ensures IsToken(s) <==> |s| == 43 && forall c :: c in s ==> c in BASE64_URL
  {
    hide IsToken;
    AlphabetIs();
    TokenCharacters(s);
  }

  predicate IsTokenChar(c: char) {
    'a' <= c <= 'z' || 'A' <= c <= 'Z' || '0' <= c <= '9' || c == '-' || c == '_'
  }

  lemma AlphabetIs()
    ensures forall c :: c in BASE64_URL <==> IsTokenChar(c)
  {
    UppersAre();
    LowersAre();
    DigitsAre();
    forall c: char ensures c in BASE64_URL <==> IsTokenChar(c) {
      hide UPPERS, LOWERS, DIGITS;
      assert c in BASE64_URL <==> c in UPPERS || c in LOWERS || c in DIGITS || c in "-_";
      assert c in "-_" <==> c == '-' || c == '_';
    }
  }

  lemma UppersAre()
    ensures forall c :: c in UPPERS <==> 'A' <= c <= 'Z'
  {
    forall c | 'A' <= c <= 'Z' ensures c in UPPERS {
      assert UPPERS[c as int - 'A' as int] == c;
    }
  }

  lemma LowersAre()
    ensures forall c :: c in LOWERS <==> 'a' <= c <= 'z'
  {
    forall c | 'a' <= c <= 'z' ensures c in LOWERS {
      assert LOWERS[c as int - 'a' as int] == c;
    }
  }

  lemma DigitsAre()
    ensures forall c :: c in DIGITS <==> '0' <= c <= '9'
  {
    forall c | '0' <= c <= '9' ensures c in DIGITS {
      assert DIGITS[c as int - '0' as int] == c;
    }
  }

  lemma TokenCharacters(s: string)
    ensures IsToken(s) <==> |s| == 43 && forall c :: c in s ==> IsTokenChar(c)
  {
    assert IsToken(s) <== |s| == 43 && forall c :: c in s ==> IsTokenChar(c) by {
      if |s| == 43 && forall c :: c in s ==> IsTokenChar(c) {
        forall k | 0 <= k < |s| ensures IsTokenChar(s[k]) {
          assert s[k] in s;
        }
      }
    }
  }

  /** A text can be compared by `compare_digest` when none of its characters is beyond U+007F. */
  lemma AsciiIff(s: string)
    ensures IsAscii(s) <==> forall c :: c in s ==> c <= '\U{7F}'
  {
    if forall c :: c in s ==> c <= '\U{7F}' {
      forall k | 0 <= k < |s| ensures s[k] as int < 128 {
        assert s[k] in s;
      }
    }
  }

  // ---------------------------------------------------------------- histories

  datatype Event =
    | Created(pk: Pk, owner: User, token: string, creator: Option<User>, now: Time)
    | Revoke(pk: Pk, user: Option<User>, now: Time, result: RevokeResult)
    | Delete(pk: Pk, user: Option<User>, now: Time, found: bool)
    | Auth(enabled: set<User>, key: string, answer: AuthResult)
    | Used(pk: Pk, now: Time)

  /** May this event happen next, and with this answer? */
  ghost predicate Legal(rows: Rows, e: Event) {
    match e
    case Created(pk, _, token, _, _) => pk !in rows && IsToken(token) && !PrefixTaken(rows, token[..PREFIX_LENGTH])
    case Revoke(pk, _, _, result) => result == RevokeResultOf(rows, pk)
    case Delete(pk, _, _, found) => found == CanDelete(rows, pk)
    case Auth(enabled, key, answer) => answer == Authenticate(rows, enabled, key)
    case Used(_, _) => true
  }

  ghost function After(rows: Rows, e: Event): Rows
    requires Legal(rows, e)
  {
    match e
    case Created(pk, owner, token, creator, now) => rows[pk := NewRow(owner, token, creator, now)]
    case Revoke(pk, user, now, _) => AfterRevoke(rows, pk, user, now)
    case Delete(pk, user, now, _) => AfterDelete(rows, pk, user, now)
    case Auth(_, _, _) => rows
    case Used(pk, now) => AfterUse(rows, pk, now)
  }

  /** The table after these events, one at a time from an empty table; None if one of them could not happen so. */
  ghost function Replay(log: seq<Event>): Option<Rows> {
    if log == [] then Some(map[])
    else
      var before := Replay(log[..|log| - 1]);
      var e := log[|log| - 1];
      if before.None? || !Legal(before.value, e) then None else Some(After(before.value, e))
  }

  lemma ReplayOne(log: seq<Event>, e: Event)
    requires Replay(log).Some? && Legal(Replay(log).value, e)
    ensures Replay(log + [e]) == Some(After(Replay(log).value, e))
  {
    assert (log + [e])[..|log|] == log;
  }

  lemma {:induction false} PrefixOfLegal(log: seq<Event>, i: nat)
    requires Replay(log).Some? && i <= |log|
    ensures Replay(log[..i]).Some?
    ensures i < |log| ==> Legal(Replay(log[..i]).value, log[i])
  {
    if i == |log| {
      assert log[..i] == log;
    } else if i < |log| - 1 {
      PrefixOfLegal(log[..|log| - 1], i);
      assert log[..|log| - 1][..i] == log[..i];
    }
  }

  /** What an event never undoes on a row. */
  ghost predicate Kept(a: KeyRow, b: KeyRow) {
    && a.owner == b.owner && a.prefix == b.prefix && a.secret == b.secret
    && (a.revokedAt.Some? ==> b.revokedAt == a.revokedAt)
    && (b.isActive ==> a.isActive)
  }

  ghost predicate RowKept(a: Rows, b: Rows, pk: Pk) {
    pk in a ==> pk in b && Kept(a[pk], b[pk])
  }

  lemma EventKeeps(rows: Rows, e: Event, pk: Pk)
    requires Legal(rows, e)
    ensures RowKept(rows, After(rows, e), pk)
  {
    hide Authenticate, IsToken;
  }

  /** Revocation stamps and deactivation are for ever, and the identity of a key never changes. */
  lemma {:induction false} NothingIsUndone(log: seq<Event>, i: nat, pk: Pk)
    requires Replay(log).Some? && i <= |log|
    ensures Replay(log[..i]).Some? && RowKept(Replay(log[..i]).value, Replay(log).value, pk)
    decreases |log|
  {
    hide Legal, After;
    PrefixOfLegal(log, i);
    if i == |log| {
      assert log[..i] == log;
    } else {
      var front := log[..|log| - 1];
      NothingIsUndone(front, i, pk);
      assert front[..i] == log[..i];
      EventKeeps(Replay(front).value, log[|log| - 1], pk);
    }
  }

  /** Every history leaves prefixes unique and equal to the head of the secret. */
  lemma {:induction false} HistoriesAreSane(log: seq<Event>)
    requires Replay(log).Some?
    ensures Sane(Replay(log).value)
  {
    hide Legal, After, Sane;
    if log == [] {
      assert Sane(map[]) by { EmptyIsSane(); }
    } else {
      HistoriesAreSane(log[..|log| - 1]);
      EventKeepsSane(Replay(log[..|log| - 1]).value, log[|log| - 1]);
    }
  }

  lemma EmptyIsSane()
    ensures Sane(map[])
  {
  }

  lemma EventKeepsSane(rows: Rows, e: Event)
    requires Legal(rows, e) && Sane(rows)
    ensures Sane(After(rows, e))
  {
    hide Authenticate;
    var after := After(rows, e);
    forall pk | pk in after
      ensures IsToken(after[pk].secret) && after[pk].prefix == after[pk].secret[..PREFIX_LENGTH]
    {
      if pk in rows { EventKeeps(rows, e, pk); }
    }
    forall p, q | p in after && q in after && after[p].prefix == after[q].prefix ensures p == q {
      EventKeeps(rows, e, p);
      EventKeeps(rows, e, q);
    }
  }

  predicate Stamps(e: Event, pk: Pk) {
    e.Revoke? && e.pk == pk && e.result == RevokedNow
  }

  predicate Removes(e: Event, pk: Pk) {
    e.Delete? && e.pk == pk && e.found
  }

  function CountStamps(log: seq<Event>, pk: Pk): nat {
    if log == [] then 0
    else CountStamps(log[..|log| - 1], pk) + if Stamps(log[|log| - 1], pk) then 1 else 0
  }

  ghost predicate IsStamped(rows: Rows, pk: Pk) {
    pk in rows && rows[pk].revokedAt.Some?
  }

  lemma EventStamps(rows: Rows, e: Event, pk: Pk)
    requires Legal(rows, e)
    ensures IsStamped(After(rows, e), pk) <==> IsStamped(rows, pk) || Stamps(e, pk)
    ensures IsStamped(rows, pk) ==> !Stamps(e, pk)
  {
    hide Authenticate, IsToken;
  }

  /** A key is stamped at most once, and exactly when its row carries a stamp. */
  lemma {:induction false} StampedOnce(log: seq<Event>, pk: Pk)
    requires Replay(log).Some?
    ensures CountStamps(log, pk) == if IsStamped(Replay(log).value, pk) then 1 else 0
  {
    hide Legal, After, Stamps, IsStamped;
    if log == [] {
      assert !IsStamped(map[], pk) by { NoneStamped(pk); }
    } else {
      StampedOnce(log[..|log| - 1], pk);
      EventStamps(Replay(log[..|log| - 1]).value, log[|log| - 1], pk);
    }
  }

  lemma NoneStamped(pk: Pk)
    ensures !IsStamped(map[], pk)
  {
  }

  lemma {:induction false} StampHasCause(log: seq<Event>, pk: Pk)
    requires CountStamps(log, pk) > 0
    ensures exists i :: 0 <= i < |log| && Stamps(log[i], pk)
  {
    if !Stamps(log[|log| - 1], pk) {
      StampHasCause(log[..|log| - 1], pk);
      var i :| 0 <= i < |log| - 1 && Stamps(log[..|log| - 1][i], pk);
      assert Stamps(log[i], pk);
    }
  }

  predicate FindsStamp(e: Event, pk: Pk) {
    e.Revoke? && e.pk == pk && e.result == AlreadyRevoked
  }

  /** `(False, True)` is answered only after some call has answered `(True, False)` for the same key. */
  lemma AlreadyRevokedHasCause(log: seq<Event>, j: nat)
    requires Replay(log).Some? && j < |log|
    requires log[j].Revoke? && log[j].result == AlreadyRevoked
    ensures exists i :: 0 <= i < j && Stamps(log[i], log[j].pk)
  {
    hide Replay, Stamps;
    var pk := log[j].pk;
    PrefixOfLegal(log, j);
    StampedOnce(log[..j], pk);
    StampHasCause(log[..j], pk);
    var i :| 0 <= i < j && Stamps(log[..j][i], pk);
    assert Stamps(log[i], pk);
  }

  predicate Enters(e: Event, pk: Pk) {
    e.Auth? && e.answer == Accepted(pk)
  }

  /** After a revocation or deletion no lookup is answered with the key, under any header. */
  lemma NoEntryAfterwards(log: seq<Event>, i: nat, j: nat, pk: Pk)
    requires Replay(log).Some? && i < j < |log|
    requires Stamps(log[i], pk) || Removes(log[i], pk)
    ensures !Enters(log[j], pk)
  {
    hide Replay, Legal, After, Stamps, Removes, Authenticate;
    PrefixOfLegal(log, i);
    PrefixOfLegal(log, i + 1);
    PrefixOfLegal(log, j);
    var before := Replay(log[..i]).value;
    assert log[..i + 1] == log[..i] + [log[i]];
    ReplayOne(log[..i], log[i]);
    EndsKey(before, log[i], pk);
    NothingIsUndone(log[..j], i + 1, pk);
    assert log[..j][..i + 1] == log[..i + 1];
    OnlyLiveRowsAreAccepted(Replay(log[..j]).value, log[j], pk);
  }

  lemma EndsKey(rows: Rows, e: Event, pk: Pk)
    requires Legal(rows, e) && (Stamps(e, pk) || Removes(e, pk))
    ensures pk in After(rows, e) && !Live(After(rows, e)[pk])
  {
    hide Authenticate, IsToken;
  }

  lemma OnlyLiveRowsAreAccepted(rows: Rows, e: Event, pk: Pk)
    requires Legal(rows, e)
    ensures Enters(e, pk) ==> pk in rows && Live(rows[pk]) && rows[pk].secret == e.key
  {
    hide IsToken, IsAscii;
  }

  // ---------------------------------------------------------------- whose key it is

  /** Event `i` made key `pk`, for this user and with this token. */
  predicate Makes(log: seq<Event>, i: nat, pk: Pk, owner: User, token: string) {
    i < |log| && log[i].Created? && log[i].pk == pk && log[i].owner == owner && log[i].token == token
  }

  lemma EventMakes(rows: Rows, e: Event, pk: Pk)
    requires Legal(rows, e)
    ensures e.Created? ==> e.pk !in rows && e.pk in After(rows, e)
    ensures e.Created? ==>
              After(rows, e)[e.pk] == KeyRow(e.owner, e.token[..8], e.token, true, None, None, e.now, e.creator)
    ensures pk in After(rows, e) <==> pk in rows || (e.Created? && e.pk == pk)
  {
    hide Authenticate;
  }

  /** A key has one creating event, which names its owner and its secret. */
  lemma {:induction false} RowsAreMadeOnce(log: seq<Event>, pk: Pk)
    requires Replay(log).Some?
    ensures pk in Replay(log).value <==> exists i :: 0 <= i < |log| && log[i].Created? && log[i].pk == pk
    ensures forall i: nat :: i < |log| && log[i].Created? && log[i].pk == pk ==>
              pk in Replay(log).value
              && Replay(log).value[pk].owner == log[i].owner && Replay(log).value[pk].secret == log[i].token
    ensures forall i, j :: 0 <= i < j < |log| && log[i].Created? && log[j].Created? ==> log[i].pk != log[j].pk
    decreases |log|
  {
    hide Legal, After;
    if log != [] {
      var front, last := log[..|log| - 1], log[|log| - 1];
      RowsAreMadeOnce(front, pk);
      if last.Created? {
        RowsAreMadeOnce(front, last.pk);
      }
      EventMakes(Replay(front).value, last, pk);
      EventKeeps(Replay(front).value, last, pk);
      assert forall i :: 0 <= i < |front| ==> front[i] == log[i];
    }
  }

  /** Straight after it is made a key is active, unstamped and unused. */
  lemma NewKeysAreLive(log: seq<Event>, i: nat)
    requires Replay(log).Some? && i < |log| && log[i].Created?
    ensures Replay(log[..i + 1]).Some?
    ensures var rows, pk := Replay(log[..i + 1]).value, log[i].pk;
            pk in rows && rows[pk].isActive && rows[pk].revokedAt == None && rows[pk].lastUsedAt == None
            && rows[pk].owner == log[i].owner && rows[pk].secret == log[i].token
  {
    hide Replay, Legal, After;
    PrefixOfLegal(log, i);
    assert log[..i + 1] == log[..i] + [log[i]];
    ReplayOne(log[..i], log[i]);
    EventMakes(Replay(log[..i]).value, log[i], log[i].pk);
  }

  /** Whoever enters with a key gives the token it was made with, and is the enabled user it was made for. */
  lemma EntryNamesTheMaker(log: seq<Event>, j: nat, pk: Pk)
    requires Replay(log).Some? && j < |log| && Enters(log[j], pk)
    ensures exists i, owner :: 0 <= i < j && Makes(log, i, pk, owner, log[j].key) && owner in log[j].enabled
  {
    hide Replay, Legal, After;
    PrefixOfLegal(log, j);
    var rows := Replay(log[..j]).value;
    AcceptedOwnerIsEnabled(rows, log[j], pk);
    RowsAreMadeOnce(log[..j], pk);
    var i :| 0 <= i < j && log[..j][i].Created? && log[..j][i].pk == pk;
    assert Makes(log, i, pk, rows[pk].owner, log[j].key);
  }

  lemma AcceptedOwnerIsEnabled(rows: Rows, e: Event, pk: Pk)
    requires Legal(rows, e) && Enters(e, pk)
    ensures pk in rows && rows[pk].owner in e.enabled && rows[pk].secret == e.key
  {
    hide IsToken, IsAscii;
  }

  /** A key just made is accepted if its owner is enabled, and otherwise answered with the account being disabled. */
  lemma NewKeyIsAnswered(log: seq<Event>, i: nat, enabled: set<User>)
    requires Replay(log).Some? && i < |log| && log[i].Created?
    ensures Replay(log[..i + 1]).Some?
    ensures Authenticate(Replay(log[..i + 1]).value, enabled, log[i].token)
            == if log[i].owner in enabled then Accepted(log[i].pk) else UserDisabled
  {
    hide Replay, Legal, After, Authenticate;
    NewKeysAreLive(log, i);
    PrefixOfLegal(log, i);
    TokenWasLegal(Replay(log[..i]).value, log[i]);
    TokensAreAscii(log[i].token);
    HistoriesAreSane(log[..i + 1]);
    OwnTokenIsAccepted(Replay(log[..i + 1]).value, enabled, log[i].pk);
  }

  lemma TokenWasLegal(rows: Rows, e: Event)
    requires Legal(rows, e) && e.Created?
    ensures IsToken(e.token)
  {
  }

  lemma OwnTokenIsAccepted(rows: Rows, enabled: set<User>, pk: Pk)
    requires Sane(rows) && pk in rows && rows[pk].isActive && rows[pk].revokedAt == None
    ensures Authenticate(rows, enabled, rows[pk].secret)
            == if rows[pk].owner in enabled then Accepted(pk) else UserDisabled
  {
    TokensAreAscii(rows[pk].secret);
    assert LiveAt(rows, rows[pk].secret[..PREFIX_LENGTH], pk);
    OneLiveRow(rows, rows[pk].secret[..PREFIX_LENGTH], pk);
    hide Sane, IsToken, IsAscii, FindByPrefix;
  }

  // ---------------------------------------------------------------- the methods

  /** How one call of `create_key` ends: a key, a collision that validation saw and raised, or three that the database refused. */
  datatype CreateResult = Made(pk: Pk, token: string) | ValidationRaises | GenerationFails

  /** Cache entries of the rate-limit cache, by the moment they expire. */
  type Expiry = map<Pk, Time>

  predicate Debounced(expiry: Expiry, pk: Pk, now: Time) {
    pk in expiry && now < expiry[pk]
  }

  function AfterAcceptance(expiry: Expiry, pk: Pk, now: Time): Expiry {
    if Debounced(expiry, pk, now) then expiry else expiry[pk := now + DEBOUNCE_SECONDS]
  }

  /** The table, and the entries that debounce `last_used_at`. */
  class KeyStore {
    var rows: Rows
    var nextPk: Pk
    var recentlyUsed: Expiry

    ghost predicate Valid()
      reads this
    {
      Sane(rows) && forall pk :: pk in rows ==> pk < nextPk
    }

    constructor ()
      ensures Valid() && rows == map[]
    {
      rows, nextPk, recentlyUsed := map[], 0, map[];
    }

    /** One attempt of `create_key` with the token the generator returned. */
    method Create(owner: User, token: string, creator: Option<User>, now: Time) returns (created: Option<Pk>)
      requires Valid() && IsToken(token)
      modifies this
      ensures Valid() && recentlyUsed == old(recentlyUsed)
      ensures created.None? <==> Collides(old(rows), token)
      ensures created.None? ==> rows == old(rows)
      ensures created.Some? ==>
                Legal(old(rows), Created(created.value, owner, token, creator, now))
                && rows == After(old(rows), Created(created.value, owner, token, creator, now))
    {
      if PrefixTaken(rows, token[..PREFIX_LENGTH]) {
        return None;
      }
      var pk := nextPk;
      EventKeepsSane(rows, Created(pk, owner, token, creator, now));
      rows := rows[pk := NewRow(owner, token, creator, now)];
      nextPk := nextPk + 1;
      return Some(pk);
    }

    /**
     `create_key`, given the tokens the generator would return. `validated[k]` tells whether validation sees the
     collision of attempt `k`, which is then raised; otherwise the database refuses the row and the next token is tried.
     */
    method CreateKey(owner: User, tokens: seq<string>, validated: seq<bool>, creator: Option<User>, now: Time)
      returns (result: CreateResult, ghost tried: nat)
      requires Valid() && |tokens| == |validated| == ATTEMPTS && forall k :: 0 <= k < ATTEMPTS ==> IsToken(tokens[k])
      modifies this
      ensures Valid() && recentlyUsed == old(recentlyUsed) && tried <= ATTEMPTS
      ensures forall k :: 0 <= k < tried ==> Collides(old(rows), tokens[k]) && !validated[k]
      ensures tried == ATTEMPTS <==> result == GenerationFails
      ensures !result.Made? ==> rows == old(rows)
      ensures result == ValidationRaises ==> Collides(old(rows), tokens[tried]) && validated[tried]
      ensures result.Made? ==>
                var e := Created(result.pk, owner, tokens[tried], creator, now);
                result.token == tokens[tried] && Legal(old(rows), e) && rows == After(old(rows), e)
    {
      hide Sane, IsToken, Collides, Legal, After;
      tried := 0;
      for k := 0 to ATTEMPTS
        invariant tried == k
        invariant Valid() && rows == old(rows) && recentlyUsed == old(recentlyUsed)
        invariant forall j :: 0 <= j < k ==> Collides(rows, tokens[j]) && !validated[j]
      {
        var created := Create(owner, tokens[k], creator, now);
        if created.Some? {
          return Made(created.value, tokens[k]), tried;
        }
        if validated[k] {
          return ValidationRaises, tried;
        }
        tried := tried + 1;
      }
      return GenerationFails, tried;
    }

    method Revoke(pk: Pk, user: Option<User>, now: Time) returns (revokedNow: bool, alreadyRevoked: bool)
      requires Valid()
      modifies this`rows
      ensures Valid()
      ensures rows == AfterRevoke(old(rows), pk, user, now)
      ensures revokedNow <==> RevokeResultOf(old(rows), pk) == RevokedNow
      ensures alreadyRevoked <==> RevokeResultOf(old(rows), pk) == AlreadyRevoked
    {
      if pk !in rows || !rows[pk].isActive {
        return false, false;
      }
      var apiKey := rows[pk];
      if apiKey.revokedAt.Some? {
        return false, true;
      }
      apiKey := apiKey.(revokedAt := Some(now));
      apiKey := apiKey.(updatedBy := user);
      apiKey := apiKey.(updatedAt := now);
      EventKeepsSane(rows, Event.Revoke(pk, user, now, RevokeResultOf(rows, pk)));
      rows := rows[pk := apiKey];
      return true, false;
    }

    /** `authenticate`: on success it may also stamp `last_used_at`, at most once while the cache entry lives. */
    method AuthenticateKey(enabled: set<User>, key: string, now: Time) returns (answer: AuthResult)
      requires Valid()
      modifies this`rows, this`recentlyUsed
      ensures Valid()
      ensures answer == Authenticate(old(rows), enabled, key)
      ensures !answer.Accepted? ==> rows == old(rows) && recentlyUsed == old(recentlyUsed)
      ensures answer.Accepted? ==>
                recentlyUsed == AfterAcceptance(old(recentlyUsed), answer.pk, now)
                && rows == if Debounced(old(recentlyUsed), answer.pk, now) then old(rows) else AfterUse(old(rows), answer.pk, now)
    {
      hide IsToken, IsAscii, Sane;
      if key == "" {
        return NotAttempted;
      }
      if |key| < PREFIX_LENGTH {
        return InvalidKey;
      }
      var prefix := key[..PREFIX_LENGTH];
      if !exists pk :: pk in rows && Live(rows[pk]) && rows[pk].prefix == prefix {
        assert forall pk :: !LiveAt(rows, prefix, pk);
        return InvalidKey;
      }
      var pk :| pk in rows && Live(rows[pk]) && rows[pk].prefix == prefix;
      assert LiveAt(rows, prefix, pk);
      OneLiveRow(rows, prefix, pk);
      if !IsAscii(rows[pk].secret) || !IsAscii(key) {
        return ComparisonRaises;
      }
      if rows[pk].secret != key {
        return InvalidKey;
      }
      if rows[pk].owner !in enabled {
        return UserDisabled;
      }
      if !(pk in recentlyUsed && now < recentlyUsed[pk]) {
        EventKeepsSane(rows, Used(pk, now));
        rows := rows[pk := rows[pk].(lastUsedAt := Some(now))];
        recentlyUsed := recentlyUsed[pk := now + DEBOUNCE_SECONDS];
      }
      return Accepted(pk);
    }
  }

  // ---------------------------------------------------------------- the debounce

  datatype Acceptance = Acceptance(pk: Pk, now: Time)

  function ExpiryAfter(log: seq<Acceptance>): Expiry {
    if log == [] then map[]
    else
      var last := log[|log| - 1];
      AfterAcceptance(ExpiryAfter(log[..|log| - 1]), last.pk, last.now)
  }

  /** Acceptance `i` writes `last_used_at`. */
  predicate WritesUse(log: seq<Acceptance>, i: nat) {
    i < |log| && !Debounced(ExpiryAfter(log[..i]), log[i].pk, log[i].now)
  }

  lemma {:induction false} EntryIsLastWrite(log: seq<Acceptance>, i: nat, pk: Pk)
    requires i <= |log|
    ensures pk in ExpiryAfter(log[..i]) <==> exists j: nat :: j < i && log[j].pk == pk && WritesUse(log, j)
    ensures pk in ExpiryAfter(log[..i]) ==>
              exists j: nat :: LastWrite(log, i, j, pk) && ExpiryAfter(log[..i])[pk] == log[j].now + DEBOUNCE_SECONDS
    decreases i
  {
    if i != 0 {
      var m := i - 1;
      EntryIsLastWrite(log, m, pk);
      assert log[..i][..m] == log[..m];
      var last := log[m];
      assert ExpiryAfter(log[..i]) == AfterAcceptance(ExpiryAfter(log[..m]), last.pk, last.now);
      hide ExpiryAfter;
      if last.pk == pk && WritesUse(log, m) {
        assert LastWrite(log, i, m, pk);
      } else if pk in ExpiryAfter(log[..m]) {
        var j: nat :| LastWrite(log, m, j, pk) && ExpiryAfter(log[..m])[pk] == log[j].now + DEBOUNCE_SECONDS;
        assert LastWrite(log, i, j, pk);
      }
    }
  }

  predicate LastWrite(log: seq<Acceptance>, i: nat, j: nat, pk: Pk) {
    j < i <= |log| && log[j].pk == pk && WritesUse(log, j)
    && forall k :: j < k < i ==> !(log[k].pk == pk && WritesUse(log, k))
  }

  /** While time does not run backwards, an acceptance writes `last_used_at` exactly when no write for its key is less than 300 s old. */
  lemma UseIsWrittenIff(log: seq<Acceptance>, i: nat)
    requires i < |log| && forall j, k :: 0 <= j < k < |log| ==> log[j].now <= log[k].now
    ensures WritesUse(log, i) <==>
            forall j: nat :: j < i && log[j].pk == log[i].pk && WritesUse(log, j) ==> log[j].now + DEBOUNCE_SECONDS <= log[i].now
  {
    var pk := log[i].pk;
    EntryIsLastWrite(log, i, pk);
    hide ExpiryAfter;
    if pk in ExpiryAfter(log[..i]) {
      var j: nat :| LastWrite(log, i, j, pk) && ExpiryAfter(log[..i])[pk] == log[j].now + DEBOUNCE_SECONDS;
      forall k: nat | k < i && log[k].pk == pk && WritesUse(log, k) ensures log[k].now <= log[j].now {
        assert k <= j;
      }
    }
  }

  // ---------------------------------------------------------------- interleaved transactions

  type Tid = nat

  datatype Op = Revoking | Deleting

  /**
   Waiting: before `select_for_update().filter(pk=..., is_active=True).first()` has returned. Holding: it returned
   `seen`, and the row stays locked until the transaction ends. Saving: the changed row is written but not committed.
   */
  datatype Phase =
    | Waiting
    | Holding(seen: KeyRow)
    | Saving(row: KeyRow, now: Time)
    | Ended

  datatype Txn = Txn(op: Op, pk: Pk, user: Option<User>, phase: Phase)

  datatype State = State(rows: Rows, locks: map<Pk, Tid>, txns: map<Tid, Txn>, log: seq<Event>)

  const INIT := State(map[], map[], map[], [])

  datatype Step =
    | Insert(pk: Pk, owner: User, token: string, creator: Option<User>, now: Time)
    | Begin(tid: Tid, op: Op, pk: Pk, user: Option<User>)
    | Miss(tid: Tid)
    | Lock(tid: Tid)
    | Save(tid: Tid, now: Time)
    | Commit(tid: Tid)
    | Abort(tid: Tid)
    | Look(enabled: set<User>, key: string)
    | Touch(pk: Pk, now: Time)

  predicate HasLock(t: Txn) {
    t.phase.Holding? || t.phase.Saving?
  }

  predicate NeedsSave(t: Txn) {
    t.phase.Holding? && (t.op == Deleting || t.phase.seen.revokedAt.None?)
  }

  predicate CanCommit(t: Txn) {
    t.phase.Saving? || (t.phase.Holding? && !NeedsSave(t))
  }

  predicate Enabled(s: State, step: Step) {
    match step
    case Insert(pk, _, token, _, _) => pk !in s.rows && IsToken(token) && !PrefixTaken(s.rows, token[..PREFIX_LENGTH])
    case Begin(tid, _, _, _) => tid !in s.txns
    case Miss(tid) => tid in s.txns && s.txns[tid].phase.Waiting? && !CanDelete(s.rows, s.txns[tid].pk)
    case Lock(tid) =>
      tid in s.txns && s.txns[tid].phase.Waiting? && CanDelete(s.rows, s.txns[tid].pk) && s.txns[tid].pk !in s.locks
    case Save(tid, _) => tid in s.txns && NeedsSave(s.txns[tid])
    case Commit(tid) => tid in s.txns && CanCommit(s.txns[tid]) && s.txns[tid].pk in s.locks
    case Abort(tid) => tid in s.txns && !s.txns[tid].phase.Ended?
    case Look(_, _) => true
    case Touch(pk, _) => pk !in s.locks
  }

  function Moved(s: State, tid: Tid, phase: Phase): State
    requires tid in s.txns
  {
    s.(txns := s.txns[tid := s.txns[tid].(phase := phase)])
  }

  function Released(s: State, tid: Tid): State
    requires tid in s.txns
  {
    Moved(s, tid, Ended).(locks := if HasLock(s.txns[tid]) then s.locks - {s.txns[tid].pk} else s.locks)
  }

  function Changed(t: Txn, now: Time): KeyRow
    requires t.phase.Holding?
  {
    if t.op == Revoking then RevokedRow(t.phase.seen, t.user, now) else DeletedRow(t.phase.seen, t.user, now)
  }

  /** What the transaction answers to its caller when it ends regularly. */
  function Answer(t: Txn): Event {
    match t.op
    case Revoking =>
      if t.phase.Saving? then Revoke(t.pk, t.user, t.phase.now, RevokedNow)
      else Revoke(t.pk, t.user, 0, if t.phase.Holding? then AlreadyRevoked else NoSuchKey)
    case Deleting =>
      if t.phase.Saving? then Delete(t.pk, t.user, t.phase.now, true) else Delete(t.pk, t.user, 0, false)
  }

  ghost function Next(s: State, step: Step): State
    requires Enabled(s, step)
  {
    match step
    case Insert(pk, owner, token, creator, now) =>
      s.(rows := s.rows[pk := NewRow(owner, token, creator, now)],
         log := s.log + [Created(pk, owner, token, creator, now)])
    case Begin(tid, op, pk, user) => s.(txns := s.txns[tid := Txn(op, pk, user, Waiting)])
    case Miss(tid) => Moved(s, tid, Ended).(log := s.log + [Answer(s.txns[tid])])
    case Lock(tid) =>
      Moved(s, tid, Holding(s.rows[s.txns[tid].pk])).(locks := s.locks[s.txns[tid].pk := tid])
    case Save(tid, now) => Moved(s, tid, Saving(Changed(s.txns[tid], now), now))
    case Commit(tid) =>
      var t := s.txns[tid];
      Released(s, tid).(rows := if t.phase.Saving? then s.rows[t.pk := t.phase.row] else s.rows,
                        log := s.log + [Answer(t)])
    case Abort(tid) => Released(s, tid)
    case Look(enabled, key) => s.(log := s.log + [Auth(enabled, key, Authenticate(s.rows, enabled, key))])
    case Touch(pk, now) => s.(rows := AfterUse(s.rows, pk, now), log := s.log + [Used(pk, now)])
  }

  ghost predicate Runs(steps: seq<Step>) {
    steps == [] || (Runs(steps[..|steps| - 1]) && Enabled(End(steps[..|steps| - 1]), steps[|steps| - 1]))
  }

  ghost function End(steps: seq<Step>): State {
    if steps == [] then INIT
    else
      var before := End(steps[..|steps| - 1]);
      if Enabled(before, steps[|steps| - 1]) then Next(before, steps[|steps| - 1]) else before
  }

  // A lock has one holder, and the holder's copy of the row is the committed row, or differs from it by the one change.

  ghost predicate OwnsLock(locks: map<Pk, Tid>, tid: Tid, t: Txn) {
    HasLock(t) ==> t.pk in locks && locks[t.pk] == tid
  }

  ghost predicate CopyIsCurrent(rows: Rows, t: Txn) {
    && (HasLock(t) ==> CanDelete(rows, t.pk))
    && (t.phase.Holding? ==> rows[t.pk] == t.phase.seen)
    && (t.phase.Saving? && t.op == Revoking ==>
          rows[t.pk].revokedAt.None? && t.phase.row == RevokedRow(rows[t.pk], t.user, t.phase.now))
    && (t.phase.Saving? && t.op == Deleting ==> t.phase.row == DeletedRow(rows[t.pk], t.user, t.phase.now))
  }

  ghost predicate TxnOk(s: State, tid: Tid) {
    tid in s.txns ==> OwnsLock(s.locks, tid, s.txns[tid]) && CopyIsCurrent(s.rows, s.txns[tid])
  }

  ghost predicate LockOk(s: State, pk: Pk) {
    pk in s.locks ==> s.locks[pk] in s.txns && HasLock(s.txns[s.locks[pk]]) && s.txns[s.locks[pk]].pk == pk
  }

  ghost predicate Inv(s: State) {
    (forall tid :: TxnOk(s, tid)) && (forall pk :: LockOk(s, pk)) && Replay(s.log) == Some(s.rows)
  }

  predicate OfTxn(step: Step) {
    step.Begin? || step.Miss? || step.Lock? || step.Save? || step.Commit? || step.Abort?
  }

  lemma AnswerIsLegal(rows: Rows, t: Txn)
    requires CopyIsCurrent(rows, t)
    requires CanCommit(t) || (t.phase.Waiting? && !CanDelete(rows, t.pk))
    ensures Legal(rows, Answer(t))
    ensures After(rows, Answer(t)) == if t.phase.Saving? then rows[t.pk := t.phase.row] else rows
  {
  }

  /** Every step that answers someone is the indivisible operation, done to the committed table. */
  lemma StepKeepsHistory(s: State, step: Step)
    requires Inv(s) && Enabled(s, step)
    ensures Replay(Next(s, step).log) == Some(Next(s, step).rows)
  {
    hide Replay, Authenticate, AfterUse, CopyIsCurrent, IsToken;
    var after := Next(s, step);
    if step.Miss? || step.Commit? {
      var t := s.txns[step.tid];
      assert TxnOk(s, step.tid);
      AnswerIsLegal(s.rows, t);
      ReplayOne(s.log, Answer(t));
    } else if step.Insert? || step.Look? || step.Touch? {
      var e := after.log[|s.log|];
      ReplayOne(s.log, e);
    }
  }

  /** A transaction's own step keeps its part of the invariant. */
  lemma OwnStep(s: State, step: Step, tid: Tid)
    requires Inv(s) && Enabled(s, step)
    requires OfTxn(step) && step.tid == tid
    ensures TxnOk(Next(s, step), tid)
  {
    hide Replay;
    assert TxnOk(s, tid);
  }

  /** A step leaves the locked row and the lock of every other transaction alone. */
  lemma OthersUntouched(s: State, step: Step, tid: Tid)
    requires Inv(s) && Enabled(s, step) && tid in s.txns
    requires OfTxn(step) ==> step.tid != tid
    ensures var after := Next(s, step);
            tid in after.txns && after.txns[tid] == s.txns[tid]
    ensures HasLock(s.txns[tid]) ==>
              var pk, after := s.txns[tid].pk, Next(s, step);
              pk in s.locks && pk in after.locks && after.locks[pk] == s.locks[pk]
              && pk in s.rows && pk in after.rows && after.rows[pk] == s.rows[pk]
  {
    hide Replay, Authenticate, IsToken, RevokedRow, DeletedRow;
    assert TxnOk(s, tid);
    if step.Commit? || step.Abort? {
      assert TxnOk(s, step.tid);
    }
  }

  lemma StepKeepsTxn(s: State, step: Step, tid: Tid)
    requires Inv(s) && Enabled(s, step)
    ensures TxnOk(Next(s, step), tid)
  {
    hide Replay, Next, Enabled, RevokedRow, DeletedRow;
    if OfTxn(step) && step.tid == tid {
      OwnStep(s, step, tid);
    } else if tid in s.txns {
      OthersUntouched(s, step, tid);
      assert TxnOk(s, tid);
    } else {
      NoNewTxn(s, step, tid);
    }
  }

  lemma NoNewTxn(s: State, step: Step, tid: Tid)
    requires Enabled(s, step) && tid !in s.txns
    requires OfTxn(step) ==> step.tid != tid
    ensures tid !in Next(s, step).txns
  {
  }

  /** Every lock stays with a transaction that holds it. */
  lemma StepKeepsLock(s: State, step: Step, pk: Pk)
    requires Inv(s) && Enabled(s, step)
    ensures LockOk(Next(s, step), pk)
  {
    hide Replay, Authenticate, IsToken, RevokedRow, DeletedRow;
    assert LockOk(s, pk);
    if OfTxn(step) {
      assert TxnOk(s, step.tid);
    }
  }

  lemma {:induction false} InvHolds(steps: seq<Step>)
    requires Runs(steps)
    ensures Inv(End(steps))
    decreases |steps|
  {
    hide Enabled, Next, TxnOk, LockOk, Replay;
    if steps == [] {
      InitOk();
    } else {
      var before, step := End(steps[..|steps| - 1]), steps[|steps| - 1];
      InvHolds(steps[..|steps| - 1]);
      forall tid ensures TxnOk(Next(before, step), tid) {
        StepKeepsTxn(before, step, tid);
      }
      forall pk ensures LockOk(Next(before, step), pk) {
        StepKeepsLock(before, step, pk);
      }
      StepKeepsHistory(before, step);
    }
  }

  lemma InitOk()
    ensures Inv(INIT)
  {
  }

  /** Every interleaving of transactions answers and leaves the table as the operations done one at a time would. */
  lemma RunsAreSerial(steps: seq<Step>)
    requires Runs(steps)
    ensures Replay(End(steps).log) == Some(End(steps).rows)
  {
    hide Enabled, Next, TxnOk, LockOk, Replay;
    InvHolds(steps);
  }

  lemma StepGrowsLog(s: State, step: Step)
    requires Enabled(s, step)
    ensures s.log <= Next(s, step).log
  {
    hide Authenticate, IsToken;
  }

  lemma {:induction false} LogGrows(steps: seq<Step>, n: nat)
    requires Runs(steps) && n <= |steps|
    ensures Runs(steps[..n]) && End(steps[..n]).log <= End(steps).log
    decreases |steps|
  {
    hide Enabled, Next;
    if n == |steps| {
      assert steps[..n] == steps;
    } else {
      var front := steps[..|steps| - 1];
      LogGrows(front, n);
      assert front[..n] == steps[..n];
      StepGrowsLog(End(front), steps[|steps| - 1]);
    }
  }

  /** From any point of a run on, no stamp is changed, no key comes back to life, and its identity stays. */
  lemma RunsUndoNothing(steps: seq<Step>, n: nat, pk: Pk)
    requires Runs(steps) && n <= |steps|
    ensures RowKept(End(steps[..n]).rows, End(steps).rows, pk)
  {
    hide Enabled, Next, Replay, RowKept, Runs, End;
    LogGrows(steps, n);
    var some, all := End(steps[..n]).log, End(steps).log;
    RunsAreSerial(steps[..n]);
    RunsAreSerial(steps);
    NothingIsUndone(all, |some|, pk);
    assert all[..|some|] == some;
  }

  /**
   The lifecycle of one key over any interleaving: rows stay sane, at most one call stamps it, the stamp and the
   deactivation are for ever, (False, True) has a cause, and after a stamp or a deletion nobody enters with it.
   */
  lemma RevocationIsWriteOnce(steps: seq<Step>, pk: Pk)
    requires Runs(steps)
    ensures var s := End(steps);
            && Sane(s.rows)
            && CountStamps(s.log, pk) == (if IsStamped(s.rows, pk) then 1 else 0)
            && (forall i, j :: 0 <= i < j < |s.log| && (Stamps(s.log[i], pk) || Removes(s.log[i], pk)) ==>
                  !Enters(s.log[j], pk))
            && (forall j :: 0 <= j < |s.log| && FindsStamp(s.log[j], pk) ==> exists i :: 0 <= i < j && Stamps(s.log[i], pk))
    ensures forall n :: 0 <= n <= |steps| ==> RowKept(End(steps[..n]).rows, End(steps).rows, pk)
  {
    hide Enabled, Next, Replay, Sane, Stamps, Removes, IsStamped, Runs, End, RowKept;
    var log := End(steps).log;
    RunsAreSerial(steps);
    HistoriesAreSane(log);
    StampedOnce(log, pk);
    forall i, j | 0 <= i < j < |log| && (Stamps(log[i], pk) || Removes(log[i], pk)) ensures !Enters(log[j], pk) {
      NoEntryAfterwards(log, i, j, pk);
    }
    forall j | 0 <= j < |log| && FindsStamp(log[j], pk) ensures exists i :: 0 <= i < j && Stamps(log[i], pk) {
      AlreadyRevokedHasCause(log, j);
    }
    forall n | 0 <= n <= |steps| ensures RowKept(End(steps[..n]).rows, End(steps).rows, pk) {
      RunsUndoNothing(steps, n, pk);
    }
  }

  ghost predicate CanMove(s: State, tid: Tid) {
    Enabled(s, Miss(tid)) || Enabled(s, Lock(tid)) || Enabled(s, Save(tid, 0)) || Enabled(s, Commit(tid))
  }

  /** A transaction holds at most one lock, so one that waits waits for one that can go on. */
  lemma NoDeadlock(steps: seq<Step>, tid: Tid)
    requires Runs(steps) && tid in End(steps).txns && !End(steps).txns[tid].phase.Ended?
    ensures var s := End(steps);
            CanMove(s, tid) || (s.txns[tid].pk in s.locks && CanMove(s, s.locks[s.txns[tid].pk]))
  {
    hide Next, Replay, IsToken, RevokedRow, DeletedRow, Runs, End;
    var s := End(steps);
    InvHolds(steps);
    assert TxnOk(s, tid) && LockOk(s, s.txns[tid].pk);
    if s.txns[tid].pk in s.locks {
      assert TxnOk(s, s.locks[s.txns[tid].pk]);
    }
  }

  // ---------------------------------------------------------------- what a finished transaction has done

  ghost predicate Goes(s: State, steps: seq<Step>, t: State)
    decreases |steps|
  {
    if steps == [] then s == t else Enabled(s, steps[0]) && Goes(Next(s, steps[0]), steps[1..], t)
  }

  predicate Answers(e: Event, op: Op, pk: Pk, user: Option<User>) {
    match op
    case Revoking => e.Revoke? && e.pk == pk && e.user == user
    case Deleting => e.Delete? && e.pk == pk && e.user == user
  }

  predicate SameCall(a: Txn, b: Txn) {
    a.op == b.op && a.pk == b.pk && a.user == b.user
  }

  lemma TxnSteps(s: State, step: Step, tid: Tid)
    requires Enabled(s, step) && tid in s.txns && !s.txns[tid].phase.Ended? && step != Abort(tid)
    ensures var t := Next(s, step);
            && tid in t.txns && SameCall(t.txns[tid], s.txns[tid]) && s.log <= t.log
            && (t.txns[tid].phase.Ended? ==>
                  |t.log| == |s.log| + 1 && Answers(t.log[|s.log|], s.txns[tid].op, s.txns[tid].pk, s.txns[tid].user))
  {
    hide Authenticate, IsToken, RevokedRow, DeletedRow;
  }

  lemma {:induction false} LogOnlyGrows(s: State, steps: seq<Step>, t: State)
    requires Goes(s, steps, t)
    ensures s.log <= t.log
    decreases |steps|
  {
    if steps != [] {
      hide Enabled, Next;
      StepGrowsLog(s, steps[0]);
      LogOnlyGrows(Next(s, steps[0]), steps[1..], t);
    }
  }

  lemma {:induction false} OpenTxnAnswers(s: State, steps: seq<Step>, t: State, tid: Tid)
    requires Goes(s, steps, t) && tid in s.txns && !s.txns[tid].phase.Ended? && Abort(tid) !in steps
    requires tid in t.txns && t.txns[tid].phase.Ended?
    ensures exists k :: |s.log| <= k < |t.log| && Answers(t.log[k], s.txns[tid].op, s.txns[tid].pk, s.txns[tid].user)
    decreases |steps|
  {
    hide Enabled, Next;
    var u := Next(s, steps[0]);
    TxnSteps(s, steps[0], tid);
    if u.txns[tid].phase.Ended? {
      LogOnlyGrows(u, steps[1..], t);
      assert t.log[|s.log|] == u.log[|s.log|];
    } else {
      OpenTxnAnswers(u, steps[1..], t, tid);
    }
  }

  /** A `revoke` or `delete` that ends without being aborted has been answered, for its key and its user, after it began. */
  lemma TxnTakesEffect(s: State, tid: Tid, op: Op, pk: Pk, user: Option<User>, during: seq<Step>, t: State)
    requires Enabled(s, Begin(tid, op, pk, user)) && Goes(Next(s, Begin(tid, op, pk, user)), during, t)
    requires Abort(tid) !in during && tid in t.txns && t.txns[tid].phase.Ended?
    ensures exists k :: |s.log| <= k < |t.log| && Answers(t.log[k], op, pk, user)
  {
    TxnBegins(s, tid, op, pk, user);
    hide Enabled, Next;
    OpenTxnAnswers(Next(s, Begin(tid, op, pk, user)), during, t, tid);
  }

  lemma TxnBegins(s: State, tid: Tid, op: Op, pk: Pk, user: Option<User>)
    requires Enabled(s, Begin(tid, op, pk, user))
    ensures var t := Next(s, Begin(tid, op, pk, user));
            t.log == s.log && t.rows == s.rows && tid in t.txns && t.txns[tid] == Txn(op, pk, user, Waiting)
  {
  }

  /** The step by which a transaction goes on, or the one by which it is given up. */
  function Onward(s: State, tid: Tid, now: Time, abort: bool): Step
    requires tid in s.txns
  {
    var t := s.txns[tid];
    if abort then Abort(tid)
    else if t.phase.Waiting? then if CanDelete(s.rows, t.pk) then Lock(tid) else Miss(tid)
    else if NeedsSave(t) then Save(tid, now)
    else Commit(tid)
  }

  function Stage(phase: Phase): nat {
    match phase
    case Waiting => 3
    case Holding(_) => 2
    case Saving(_, _) => 1
    case Ended => 0
  }

  /** The row of this transaction is locked by it, if it has got so far, and by nobody before. */
  ghost predicate HoldsOwn(s: State, tid: Tid) {
    && tid in s.txns
    && var t := s.txns[tid];
       if HasLock(t) then t.pk in s.locks && s.locks[t.pk] == tid else t.pk !in s.locks
  }

  /** Nothing but transaction `tid` has moved. */
  ghost predicate OnlyItMoved(s: State, t: State, tid: Tid) {
    && s.txns.Keys == t.txns.Keys && tid in s.txns && SameCall(t.txns[tid], s.txns[tid])
    && forall other :: other in s.txns && other != tid ==> t.txns[other] == s.txns[other]
  }

  lemma OnwardGoesDown(s: State, tid: Tid, now: Time, abort: bool)
    requires HoldsOwn(s, tid) && !s.txns[tid].phase.Ended?
    ensures var step := Onward(s, tid, now, abort);
            && Enabled(s, step)
            && var t := Next(s, step);
               && OnlyItMoved(s, t, tid) && HoldsOwn(t, tid) && Stage(t.txns[tid].phase) < Stage(s.txns[tid].phase)
               && (!t.txns[tid].phase.Ended? ==> t.log == s.log)
               && (abort ==> t.rows == s.rows && t.log == s.log && t.txns[tid].phase.Ended?)
  {
    hide IsToken, Authenticate, RevokedRow, DeletedRow;
  }

  /**
   A transaction whose row no other one has locked comes to its end without another moving, and leaves the row unlocked;
   aborted it changes no row and answers nothing, and otherwise it is answered.
   */
  lemma {:induction false} EndsAlone(s: State, tid: Tid, now: Time, abort: bool) returns (steps: seq<Step>, t: State)
    requires HoldsOwn(s, tid) && !s.txns[tid].phase.Ended?
    ensures Goes(s, steps, t) && OnlyItMoved(s, t, tid) && t.txns[tid].phase.Ended? && t.txns[tid].pk !in t.locks
    ensures if abort then t.rows == s.rows && t.log == s.log
            else |t.log| == |s.log| + 1
                 && Answers(t.log[|s.log|], s.txns[tid].op, s.txns[tid].pk, s.txns[tid].user)
    decreases Stage(s.txns[tid].phase)
  {
    hide Enabled, Next, Onward;
    var step := Onward(s, tid, now, abort);
    OnwardGoesDown(s, tid, now, abort);
    if !abort {
      OnwardIsNoAbort(s, tid, now);
      TxnSteps(s, step, tid);
    }
    var u := Next(s, step);
    if u.txns[tid].phase.Ended? {
      steps, t := [step], u;
      assert [step][1..] == [];
    } else {
      var rest;
      rest, t := EndsAlone(u, tid, now, abort);
      steps := [step] + rest;
      assert steps[1..] == rest;
    }
  }

  lemma OnwardIsNoAbort(s: State, tid: Tid, now: Time)
    requires tid in s.txns
    ensures Onward(s, tid, now, false) != Abort(tid)
  {
  }

  lemma {:induction false} GoesOn(s: State, a: seq<Step>, t: State, b: seq<Step>, u: State)
    requires Goes(s, a, t) && Goes(t, b, u)
    ensures Goes(s, a + b, u)
    decreases |a|
  {
    hide Next, Enabled;
    if a == [] {
      assert a + b == b;
    } else {
      GoesOn(Next(s, a[0]), a[1..], t, b, u);
      assert (a + b)[1..] == a[1..] + b;
    }
  }

  /** From every reachable state every transaction can come to its end, after the one that has its row locked, if there is one. */
  lemma EveryTxnCanEnd(steps: seq<Step>, tid: Tid, now: Time, abort: bool) returns (more: seq<Step>, t: State)
    requires Runs(steps) && tid in End(steps).txns && !End(steps).txns[tid].phase.Ended?
    ensures Goes(End(steps), more, t)
    ensures tid in t.txns && t.txns[tid].phase.Ended? && t.txns[tid].pk !in t.locks
  {
    hide Next, Enabled, Replay, Runs, End, Onward;
    var s := End(steps);
    InvHolds(steps);
    var pk := s.txns[tid].pk;
    assert TxnOk(s, tid) && LockOk(s, pk);
    if pk in s.locks && s.locks[pk] != tid {
      var holder := s.locks[pk];
      assert TxnOk(s, holder);
      var a, u := EndsAlone(s, holder, now, false);
      var b;
      b, t := EndsAlone(u, tid, now, abort);
      GoesOn(s, a, u, b, t);
      more := a + b;
    } else {
      more, t := EndsAlone(s, tid, now, abort);
    }
  }

  /** What each event does to the table: which row it may change, and in which fields. */
  lemma EventsChangeOneRow(rows: Rows, e: Event, q: Pk)
    requires Legal(rows, e)
    ensures q in rows && (e.Auth? || q != e.pk) ==> q in After(rows, e) && After(rows, e)[q] == rows[q]
    ensures e.Revoke? && e.result == RevokedNow ==>
              var was := rows[e.pk];
              && was.isActive && was.revokedAt == None
              && After(rows, e)[e.pk] == KeyRow(was.owner, was.prefix, was.secret, true, Some(e.now), was.lastUsedAt, e.now, e.user)
    ensures e.Revoke? && e.result != RevokedNow ==> After(rows, e) == rows
    ensures e.Revoke? && e.result == NoSuchKey <==> e.Revoke? && !(e.pk in rows && rows[e.pk].isActive)
    ensures e.Delete? && e.found ==>
              var was := rows[e.pk];
              && was.isActive
              && After(rows, e)[e.pk] == KeyRow(was.owner, was.prefix, was.secret, false, was.revokedAt, was.lastUsedAt, e.now,
                                                if e.user.Some? then e.user else was.updatedBy)
    ensures e.Delete? && !e.found ==> After(rows, e) == rows && !(e.pk in rows && rows[e.pk].isActive)
    ensures e.Used? && e.pk in rows ==>
              var was := rows[e.pk];
              After(rows, e)[e.pk] == KeyRow(was.owner, was.prefix, was.secret, was.isActive, was.revokedAt, Some(e.now),
                                             was.updatedAt, was.updatedBy)
  {
    hide Authenticate, IsToken;
  }
}
