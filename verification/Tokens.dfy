// Tokens: createToken, revokeToken and lookup of collector/src/auth.ts over the
// token file. A digest is taken to be injective, and what is drawn at random - a
// token, an id - is given to the operation that draws it.

module Tokens {
  import opened Text

  datatype Digest = Sha256(of: string)

  datatype Record = Record(
    id: string, name: string, hash: Digest, scopes: seq<string>, createdAt: int, expiresAt: Option<int>,
    revokedAt: Option<int>)

  /** The file as a reader finds it: absent, not JSON, or a list of records. */
  datatype File = Missing | Corrupt | Holding(records: seq<Record>)

  datatype Problem = BadName | UnknownScope | NoScope | Unreadable | NameTaken

  datatype Result<+T> = Ok(value: T) | Err(problem: Problem)

  /** readTokenFile. */
  function ReadFile(f: File): Result<seq<Record>> {
    match f
    case Missing => Ok([])
    case Corrupt => Err(Unreadable)
    case Holding(records) => Ok(records)
  }

  predicate NameChar(c: char) {
    'a' <= c <= 'z' || 'A' <= c <= 'Z' || '0' <= c <= '9' || c in "_.@:-"
  }

  /** ^[\w.@:-]{1,64}$ */
  predicate GoodName(name: string) {
    1 <= |name| <= 64 && forall i :: 0 <= i < |name| ==> NameChar(name[i])
  }

  predicate KnownScope(s: string) {
    s in ["read", "run", "admin", "agent", "delegate"]
  }

  /** [...new Set(scopes)]. */
  function Unique(scopes: seq<string>): seq<string> {
    if scopes == [] then []
    else
      var rest := Unique(scopes[..|scopes| - 1]);
      if scopes[|scopes| - 1] in rest then rest else rest + [scopes[|scopes| - 1]]
  }

  /** No scope is lost or made up, and none is listed twice. */
  lemma {:induction false} UniqueIsASet(scopes: seq<string>)
    ensures forall s :: s in Unique(scopes) <==> s in scopes
    ensures forall i, j :: 0 <= i < j < |Unique(scopes)| ==> Unique(scopes)[i] != Unique(scopes)[j]
  {
    if scopes != [] {
      UniqueIsASet(scopes[..|scopes| - 1]);
      assert scopes == scopes[..|scopes| - 1] + [scopes[|scopes| - 1]];
    }
  }

  predicate IsLive(r: Record) {
    r.revokedAt.None?
  }

  predicate NameIsTaken(records: seq<Record>, name: string) {
    exists i :: 0 <= i < |records| && records[i].name == name && IsLive(records[i])
  }

  const DAY_MS := 86_400_000

  /** What is asked of createToken, with what it draws at random and the time it draws it. */
  datatype Request = Request(name: string, scopes: seq<string>, expiresDays: int, token: string, id: string, at: int)

  function RecordOf(q: Request): Record {
    Record(q.id, Trim(q.name), Sha256(q.token), Unique(q.scopes), q.at,
      if q.expiresDays != 0 then Some(q.at + q.expiresDays * DAY_MS) else None, None)
  }

  function Refusal(f: File, q: Request): Option<Problem> {
    if !GoodName(Trim(q.name)) then Some(BadName)
    else if exists i :: 0 <= i < |q.scopes| && !KnownScope(q.scopes[i]) then Some(UnknownScope)
    else if q.scopes == [] then Some(NoScope)
    else if ReadFile(f).Err? then Some(Unreadable)
    else if NameIsTaken(ReadFile(f).value, Trim(q.name)) then Some(NameTaken)
    else None
  }

  function Create(f: File, q: Request): File {
    if Refusal(f, q).Some? then f else Holding(ReadFile(f).value + [RecordOf(q)])
  }

  predicate Answers(r: Record, idOrName: string) {
    (r.id == idOrName || r.name == idOrName) && IsLive(r)
  }

  function RevokeOne(r: Record, idOrName: string, at: int): Record {
    if Answers(r, idOrName) then r.(revokedAt := Some(at)) else r
  }

  function RevokeAll(records: seq<Record>, idOrName: string, at: int): (r: seq<Record>)
    ensures |r| == |records|
    ensures forall i :: 0 <= i < |records| ==> r[i] == RevokeOne(records[i], idOrName, at)
  {
    if records == [] then [] else [RevokeOne(records[0], idOrName, at)] + RevokeAll(records[1..], idOrName, at)
  }

  function HowMany(records: seq<Record>, idOrName: string): nat {
    if records == [] then 0
    else HowMany(records[..|records| - 1], idOrName) + if Answers(records[|records| - 1], idOrName) then 1 else 0
  }

  /** revokeToken: writes only if it revoked something. */
  function Revoke(f: File, idOrName: string, at: int): File {
    if ReadFile(f).Ok? && HowMany(ReadFile(f).value, idOrName) > 0
    then Holding(RevokeAll(ReadFile(f).value, idOrName, at)) else f
  }

  predicate Expired(r: Record, now: int) {
    r.expiresAt.Some? && r.expiresAt.value <= now
  }

  /** lookup: the first record of the token's digest decides. */
  function Lookup(records: seq<Record>, token: string, now: int): Option<Record> {
    if records == [] then None
    else if records[0].hash == Sha256(token) then
      if !IsLive(records[0]) || Expired(records[0], now) then None else Some(records[0])
    else Lookup(records[1..], token, now)
  }

  // ---- histories -------------------------------------------------------------

  datatype Op = Creates(request: Request) | Revokes(idOrName: string, at: int)

  function Do(f: File, op: Op): File {
    match op
    case Creates(q) => Create(f, q)
    case Revokes(idOrName, at) => Revoke(f, idOrName, at)
  }

  function After(f: File, ops: seq<Op>): File {
    if ops == [] then f else Do(After(f, ops[..|ops| - 1]), ops[|ops| - 1])
  }

  /** The records a reader that swallows errors sees. */
  function Table(f: File): seq<Record> {
    if f.Holding? then f.records else []
  }

  // ---- one live token to a name ----------------------------------------------

  predicate LiveNamesDiffer(records: seq<Record>) {
    forall i, j :: 0 <= i < j < |records| && IsLive(records[i]) && IsLive(records[j]) ==> records[i].name != records[j].name
  }

  lemma RevokingNothing(records: seq<Record>, idOrName: string, at: int)
    requires HowMany(records, idOrName) == 0
    ensures RevokeAll(records, idOrName, at) == records
  {
    forall i | 0 <= i < |records| ensures RevokeAll(records, idOrName, at)[i] == records[i] {
      if Answers(records[i], idOrName) { CountedIfAnswers(records, idOrName, i); }
    }
  }

  lemma {:induction false} CountedIfAnswers(records: seq<Record>, idOrName: string, i: nat)
    requires i < |records| && Answers(records[i], idOrName)
    ensures HowMany(records, idOrName) > 0
  {
    if i < |records| - 1 { CountedIfAnswers(records[..|records| - 1], idOrName, i); }
  }

  /** Either way a revoke leaves the table with every record that answers revoked. */
  lemma RevokeIs(f: File, idOrName: string, at: int)
    ensures Table(Revoke(f, idOrName, at)) == RevokeAll(Table(f), idOrName, at)
  {
    if f.Holding? && HowMany(f.records, idOrName) == 0 { RevokingNothing(f.records, idOrName, at); }
  }

  lemma OpKeepsNamesApart(f: File, op: Op)
    requires LiveNamesDiffer(Table(f))
    ensures LiveNamesDiffer(Table(Do(f, op)))
  {
    hide RevokeAll, HowMany, Revoke, GoodName, KnownScope;
    if op.Revokes? { RevokeIs(f, op.idOrName, op.at); }
  }

  /** Over every sequence of creations and revocations no two unrevoked tokens share a name. */
  lemma {:induction false} NoTwoLiveTokensShareAName(f: File, ops: seq<Op>)
    requires LiveNamesDiffer(Table(f))
    ensures LiveNamesDiffer(Table(After(f, ops)))
  {
    hide LiveNamesDiffer, Do, Table;
    if ops != [] {
      NoTwoLiveTokensShareAName(f, ops[..|ops| - 1]);
      OpKeepsNamesApart(After(f, ops[..|ops| - 1]), ops[|ops| - 1]);
    }
  }

  // ---- revoked for good ------------------------------------------------------

  /** r' is r, perhaps revoked since. */
  predicate Aged(r: Record, r': Record) {
    r' == r || (IsLive(r) && !IsLive(r') && r' == r.(revokedAt := r'.revokedAt))
  }

  predicate Grown(records: seq<Record>, records': seq<Record>) {
    |records| <= |records'| && forall i :: 0 <= i < |records| ==> Aged(records[i], records'[i])
  }

  lemma OpOnlyAges(f: File, op: Op)
    ensures Grown(Table(f), Table(Do(f, op)))
  {
    hide RevokeAll, HowMany, Revoke, GoodName, KnownScope, NameIsTaken;
    if op.Revokes? { RevokeIs(f, op.idOrName, op.at); }
  }

  /**
   * No sequence of creations and revocations removes a record, reorders the
   * records, changes one but by revoking it, or makes a revoked one live again.
   */
  lemma {:induction false} RevokedIsForGood(f: File, ops: seq<Op>)
    ensures Grown(Table(f), Table(After(f, ops)))
  {
    hide Do, Table, Aged;
    if ops == [] {
      AgedIsReflexive();
    } else {
      var mid := After(f, ops[..|ops| - 1]);
      RevokedIsForGood(f, ops[..|ops| - 1]);
      OpOnlyAges(mid, ops[|ops| - 1]);
      forall i | 0 <= i < |Table(f)| ensures Aged(Table(f)[i], Table(After(f, ops))[i]) {
        AgedTwice(Table(f)[i], Table(mid)[i], Table(After(f, ops))[i]);
      }
    }
  }

  lemma AgedIsReflexive()
    ensures forall r :: Aged(r, r)
  {
  }

  lemma AgedTwice(a: Record, b: Record, c: Record)
    requires Aged(a, b) && Aged(b, c)
    ensures Aged(a, c)
  {
  }

  // ---- when a token is accepted ----------------------------------------------

  /** Only record i has the token's digest. */
  predicate OnlyHolder(records: seq<Record>, token: string, i: nat) {
    i < |records| && forall j :: 0 <= j < |records| ==> (records[j].hash == Sha256(token) <==> j == i)
  }

  lemma {:induction false} LookupFindsHolder(records: seq<Record>, token: string, now: int, i: nat)
    requires OnlyHolder(records, token, i)
    ensures Lookup(records, token, now) ==
      if IsLive(records[i]) && !Expired(records[i], now) then Some(records[i]) else None
  {
    if i > 0 { LookupFindsHolder(records[1..], token, now, i - 1); }
  }

  /** The first record of the token's digest stands at i. */
  predicate FirstHolder(records: seq<Record>, token: string, i: nat) {
    i < |records| && records[i].hash == Sha256(token) && forall j :: 0 <= j < i ==> records[j].hash != Sha256(token)
  }

  lemma HolderOfRest(records: seq<Record>, token: string, i: nat)
    requires records != [] && records[0].hash != Sha256(token)
    ensures FirstHolder(records[1..], token, i) <==> FirstHolder(records, token, i + 1)
    ensures !FirstHolder(records, token, 0)
  {
    if FirstHolder(records[1..], token, i) {
      forall j | 0 <= j < i + 1 ensures records[j].hash != Sha256(token) { assert j > 0 ==> records[1..][j - 1] == records[j]; }
    }
    if FirstHolder(records, token, i + 1) {
      forall j | 0 <= j < i ensures records[1..][j].hash != Sha256(token) { assert records[1..][j] == records[j + 1]; }
    }
  }

  /**
   * lookup accepts a token as the record r exactly when some record has the
   * token's digest and the first that has is r, neither revoked nor expired.
   */
  lemma {:induction false} LookupExactlyWhen(records: seq<Record>, token: string, now: int, r: Record)
    ensures Lookup(records, token, now) == Some(r) <==>
      exists i: nat :: FirstHolder(records, token, i) && records[i] == r && r.revokedAt.None? &&
        (r.expiresAt.Some? ==> now < r.expiresAt.value)
  {
    if records != [] {
      if records[0].hash == Sha256(token) {
        assert FirstHolder(records, token, 0);
      } else {
        LookupExactlyWhen(records[1..], token, now, r);
        forall i: nat ensures FirstHolder(records[1..], token, i) <==> FirstHolder(records, token, i + 1) {
          HolderOfRest(records, token, i);
        }
        HolderOfRest(records, token, 0);
        if i: nat :| FirstHolder(records[1..], token, i) && records[1..][i] == r { assert FirstHolder(records, token, i + 1); }
        if i: nat :| FirstHolder(records, token, i) && records[i] == r {
          assert FirstHolder(records[1..], token, i - 1);
        }
      }
    }
  }

  /** An operation that does not issue this token again. */
  predicate LeavesAlone(op: Op, token: string) {
    op.Creates? ==> op.request.token != token
  }

  /** One later operation: the token's record stays where it is, and is live unless this revokes it. */
  lemma OneMoreOp(f: File, op: Op, token: string, i: nat)
    requires OnlyHolder(Table(f), token, i) && LeavesAlone(op, token)
    ensures OnlyHolder(Table(Do(f, op)), token, i)
    ensures var r, r' := Table(f)[i], Table(Do(f, op))[i];
      r'.id == r.id && r'.name == r.name && r'.expiresAt == r.expiresAt && r'.scopes == r.scopes &&
      (IsLive(r') <==> IsLive(r) && !(op.Revokes? && (op.idOrName == r.id || op.idOrName == r.name)))
  {
    hide RevokeAll, HowMany, Revoke, GoodName, KnownScope, NameIsTaken;
    if op.Revokes? { RevokeIs(f, op.idOrName, op.at); }
  }

  predicate Names(op: Op, r: Record) {
    op.Revokes? && (op.idOrName == r.id || op.idOrName == r.name)
  }

  predicate NoneNames(ops: seq<Op>, r: Record) {
    forall i :: 0 <= i < |ops| ==> !Names(ops[i], r)
  }

  lemma {:induction false} LaterOps(f: File, ops: seq<Op>, token: string, i: nat)
    requires OnlyHolder(Table(f), token, i) && IsLive(Table(f)[i])
    requires forall j :: 0 <= j < |ops| ==> LeavesAlone(ops[j], token)
    ensures OnlyHolder(Table(After(f, ops)), token, i)
    ensures var r, r' := Table(f)[i], Table(After(f, ops))[i];
      r'.id == r.id && r'.name == r.name && r'.expiresAt == r.expiresAt && r'.scopes == r.scopes &&
      (IsLive(r') <==> NoneNames(ops, r))
  {
    hide Do, Table, LeavesAlone, OnlyHolder;
    HolderIsThere(f, token, i);
    if ops != [] {
      var front := ops[..|ops| - 1];
      LaterOps(f, front, token, i);
      OneMoreOp(After(f, front), ops[|ops| - 1], token, i);
      HolderIsThere(After(f, front), token, i);
      HolderIsThere(After(f, ops), token, i);
      NoneNamesSplits(ops, Table(f)[i]);
    }
  }

  lemma HolderIsThere(f: File, token: string, i: nat)
    requires OnlyHolder(Table(f), token, i)
    ensures i < |Table(f)|
  {
  }

  lemma NoneNamesSplits(ops: seq<Op>, r: Record)
    requires ops != []
    ensures NoneNames(ops, r) <==> NoneNames(ops[..|ops| - 1], r) && !Names(ops[|ops| - 1], r)
  {
    hide Names;
  }

  predicate Unissued(records: seq<Record>, token: string) {
    forall i :: 0 <= i < |records| ==> records[i].hash != Sha256(token)
  }

  lemma UnissuedIsRefused(records: seq<Record>, token: string, now: int)
    requires Unissued(records, token)
    ensures Lookup(records, token, now).None?
  {
    hide Lookup;
    if Lookup(records, token, now).Some? { LookupExactlyWhen(records, token, now, Lookup(records, token, now).value); }
  }

  lemma OneOpIssues(f: File, op: Op, token: string)
    requires Unissued(Table(f), token) && LeavesAlone(op, token)
    ensures Unissued(Table(Do(f, op)), token)
  {
    hide RevokeAll, HowMany, Revoke, GoodName, KnownScope, NameIsTaken;
    if op.Revokes? { RevokeIs(f, op.idOrName, op.at); }
  }

  lemma {:induction false} StaysUnissued(f: File, ops: seq<Op>, token: string)
    requires Unissued(Table(f), token) && forall j :: 0 <= j < |ops| ==> LeavesAlone(ops[j], token)
    ensures Unissued(Table(After(f, ops)), token)
  {
    hide Do, Table, LeavesAlone, Unissued;
    if ops != [] {
      StaysUnissued(f, ops[..|ops| - 1], token);
      OneOpIssues(After(f, ops[..|ops| - 1]), ops[|ops| - 1], token);
    }
  }

  /** No token is accepted that was never issued: after any history of a new file an accepted one was asked for in it. */
  lemma OnlyIssuedTokensAreAccepted(ops: seq<Op>, token: string, now: int)
    requires Lookup(Table(After(Missing, ops)), token, now).Some?
    ensures exists j :: 0 <= j < |ops| && ops[j].Creates? && ops[j].request.token == token
  {
    hide Lookup, After;
    if !exists j :: 0 <= j < |ops| && ops[j].Creates? && ops[j].request.token == token {
      StaysUnissued(Missing, ops, token);
      UnissuedIsRefused(Table(After(Missing, ops)), token, now);
    }
  }

  /**
   * A token, once issued, is accepted after any further creations and
   * revocations exactly as long as none of these revokes its id or its name and
   * it has not expired - given that nothing else was issued the same token.
   */
  lemma AcceptedExactlyUntilRevoked(f: File, q: Request, later: seq<Op>, now: int)
    requires Refusal(f, q).None? && Unissued(Table(f), q.token)
    requires forall j :: 0 <= j < |later| ==> LeavesAlone(later[j], q.token)
    ensures Lookup(Table(After(Create(f, q), later)), q.token, now).Some? <==>
      NoneNames(later, RecordOf(q)) && (q.expiresDays == 0 || now < q.at + q.expiresDays * 86_400_000)
  {
    hide Refusal, After, NoneNames, LeavesAlone, RecordOf, Lookup;
    IssuedRecord(q, now);
    CreateAppends(f, q);
    var i := |Table(f)|;
    var issued := Create(f, q);
    assert OnlyHolder(Table(issued), q.token, i);
    LaterOps(issued, later, q.token, i);
    LookupFindsHolder(Table(After(issued, later)), q.token, now, i);
  }

  lemma CreateAppends(f: File, q: Request)
    requires Refusal(f, q).None?
    ensures Table(Create(f, q)) == Table(f) + [RecordOf(q)]
  {
    hide GoodName, KnownScope, NameIsTaken, RecordOf;
  }

  lemma IssuedRecord(q: Request, now: int)
    ensures IsLive(RecordOf(q)) && RecordOf(q).hash == Sha256(q.token) && RecordOf(q).id == q.id
    ensures RecordOf(q).name == Trim(q.name)
    ensures Expired(RecordOf(q), now) <==> !(q.expiresDays == 0 || now < q.at + q.expiresDays * DAY_MS)
  {
  }

  /**
   * What is issued is what was asked for: the scopes, each once and no other, the
   * trimmed name, the digest of the token, and whole days of 86,400,000 ms to
   * live, counted from now, if any were asked for.
   */
  lemma IssuedAsAsked(q: Request)
    ensures var r := RecordOf(q);
      (forall s :: s in r.scopes <==> s in q.scopes) &&
      (forall i, j :: 0 <= i < j < |r.scopes| ==> r.scopes[i] != r.scopes[j]) &&
      r.id == q.id && r.name == Trim(q.name) && r.hash == Sha256(q.token) && r.createdAt == q.at && r.revokedAt.None? &&
      (r.expiresAt.Some? <==> q.expiresDays != 0) &&
      (r.expiresAt.Some? ==> r.expiresAt.value - q.at == q.expiresDays * 86_400_000)
  {
    UniqueIsASet(q.scopes);
  }

  /** And whenever it is accepted later, it is with those scopes and under that name. */
  lemma AcceptedWithItsScopes(f: File, q: Request, later: seq<Op>, now: int, r: Record)
    requires Refusal(f, q).None? && Unissued(Table(f), q.token)
    requires forall j :: 0 <= j < |later| ==> LeavesAlone(later[j], q.token)
    requires Lookup(Table(After(Create(f, q), later)), q.token, now) == Some(r)
    ensures r.id == q.id && r.name == Trim(q.name) && forall s :: s in r.scopes <==> s in q.scopes
  {
    hide Refusal, After, NoneNames, LeavesAlone, RecordOf, Lookup;
    IssuedRecord(q, now);
    IssuedAsAsked(q);
    CreateAppends(f, q);
    var i := |Table(f)|;
    var issued := Create(f, q);
    assert OnlyHolder(Table(issued), q.token, i);
    LaterOps(issued, later, q.token, i);
    LookupFindsHolder(Table(After(issued, later)), q.token, now, i);
  }

  const LETTERS := "abcdefghijklmnopqrstuvwxyz"
  const CAPITALS := "ABCDEFGHIJKLMNOPQRSTUVWXYZ"
  const DIGITS := "0123456789"

  predicate InLetters(name: string) {
    forall i :: 0 <= i < |name| ==> name[i] in LETTERS || name[i] in CAPITALS || name[i] in DIGITS || name[i] in "_.@:-"
  }

  lemma LetterIs(c: char)
    ensures 'a' <= c <= 'z' <==> c in LETTERS
  {
    if 'a' <= c <= 'z' { assert LETTERS[c as int - 'a' as int] == c; }
  }

  lemma CapitalIs(c: char)
    ensures 'A' <= c <= 'Z' <==> c in CAPITALS
  {
    if 'A' <= c <= 'Z' { assert CAPITALS[c as int - 'A' as int] == c; }
  }

  lemma DigitIs(c: char)
    ensures '0' <= c <= '9' <==> c in DIGITS
  {
    if '0' <= c <= '9' { assert DIGITS[c as int - '0' as int] == c; }
  }

  lemma GoodNameIs(name: string)
    ensures GoodName(name) <==> 1 <= |name| <= 64 && InLetters(name)
  {
    forall i | 0 <= i < |name|
      ensures NameChar(name[i]) <==>
        name[i] in LETTERS || name[i] in CAPITALS || name[i] in DIGITS || name[i] in "_.@:-"
    {
      LetterIs(name[i]);
      CapitalIs(name[i]);
      DigitIs(name[i]);
    }
  }

  /**
   * createToken refuses exactly when the trimmed name is empty, longer than 64 or
   * holds a character outside the listed ones, a scope asked for is none of the
   * five, none is asked for, the file cannot be read, or a live token has the
   * name; and a refusal leaves the file alone.
   */
  lemma RefusesExactlyWhen(f: File, q: Request)
    ensures Refusal(f, q).Some? <==>
      !(1 <= |Trim(q.name)| <= 64 && InLetters(Trim(q.name))) ||
      (exists i :: 0 <= i < |q.scopes| && q.scopes[i] !in ["read", "run", "admin", "agent", "delegate"]) ||
      q.scopes == [] || f == Corrupt ||
      exists i :: 0 <= i < |Table(f)| && Table(f)[i].name == Trim(q.name) && Table(f)[i].revokedAt.None?
    ensures Refusal(f, q).Some? ==> Create(f, q) == f
  {
    hide GoodName, InLetters, NameIsTaken;
    GoodNameIs(Trim(q.name));
    TakenIs(f, Trim(q.name));
    if i :| 0 <= i < |q.scopes| && q.scopes[i] !in ["read", "run", "admin", "agent", "delegate"] {
      assert !KnownScope(q.scopes[i]);
    }
  }

  lemma TakenIs(f: File, name: string)
    ensures ReadFile(f).Ok? ==> ReadFile(f).value == Table(f)
    ensures NameIsTaken(Table(f), name) <==>
      exists i :: 0 <= i < |Table(f)| && Table(f)[i].name == name && Table(f)[i].revokedAt.None?
  {
    hide Table;
    if f.Holding? || f.Missing? { TableIs(f); }
  }

  lemma TableIs(f: File)
    ensures ReadFile(f).Ok? ==> ReadFile(f).value == Table(f)
  {
  }

  /** createToken succeeds for every request that is well formed exactly when the name has no live token. */
  lemma CreatesExactlyWhenTheNameIsFree(f: File, q: Request)
    requires GoodName(Trim(q.name)) && q.scopes != [] && forall i :: 0 <= i < |q.scopes| ==> KnownScope(q.scopes[i])
    ensures Refusal(f, q).None? <==> !f.Corrupt? && !NameIsTaken(Table(f), Trim(q.name))
    ensures f.Corrupt? ==> Create(f, q) == f
  {
    hide GoodName, KnownScope, NameIsTaken;
  }

  /** A revoke stamps the time on every live record of the id or the name, and touches nothing else. */
  lemma RevokeStamps(f: File, idOrName: string, at: int, i: nat)
    requires i < |Table(f)|
    ensures |Table(Revoke(f, idOrName, at))| == |Table(f)|
    ensures var r := Table(f)[i];
      Table(Revoke(f, idOrName, at))[i] ==
        if (r.id == idOrName || r.name == idOrName) && r.revokedAt.None? then r.(revokedAt := Some(at)) else r
  {
    hide Revoke, RevokeAll;
    RevokeIs(f, idOrName, at);
  }

  /** A file that is missing or corrupt denies everything. */
  lemma NoFileNoToken(f: File, token: string, now: int)
    requires f == Missing || f == Corrupt
    ensures Lookup(Table(f), token, now).None?
  {
    UnissuedIsRefused(Table(f), token, now);
  }

  /** Once its name is revoked a well-formed token can be created again under it. */
  lemma RevokingFreesTheName(f: File, name: string, at: int)
    ensures !NameIsTaken(Table(Revoke(f, name, at)), name)
  {
    hide Revoke, RevokeAll;
    RevokeIs(f, name, at);
  }

  // ---- the file as the collector and the command line change it ---------------

  class TokenFile {
    var file: File

    method ReadTokenFile() returns (r: Result<seq<Record>>)
      ensures r == ReadFile(file)
    {
      r := match file case Missing => Ok([]) case Corrupt => Err(Unreadable) case Holding(records) => Ok(records);
    }

    method CreateToken(q: Request) returns (r: Result<Record>)
      modifies this
      ensures file == Create(old(file), q)
      ensures r == match Refusal(old(file), q) case Some(p) => Err(p) case None => Ok(RecordOf(q))
    {
      hide GoodName, KnownScope, Unique;
      var name := Trim(q.name);
      if !GoodName(name) { return Err(BadName); }
      var unknown := FindUnknown(q.scopes);
      if unknown { return Err(UnknownScope); }
      if |q.scopes| == 0 { return Err(NoScope); }
      var data := ReadTokenFile();
      if data.Err? { return Err(Unreadable); }
      var taken := FindLive(data.value, name);
      if taken { return Err(NameTaken); }
      var record := RecordOf(q);
      file := Holding(data.value + [record]);
      return Ok(record);
    }

    static method FindUnknown(scopes: seq<string>) returns (some: bool)
      ensures some <==> exists i :: 0 <= i < |scopes| && !KnownScope(scopes[i])
    {
      hide KnownScope;
      some := false;
      for i := 0 to |scopes|
        invariant some <==> exists j :: 0 <= j < i && !KnownScope(scopes[j])
      {
        some := some || !KnownScope(scopes[i]);
      }
    }

    static method FindLive(records: seq<Record>, name: string) returns (some: bool)
      ensures some <==> NameIsTaken(records, name)
    {
      for i := 0 to |records|
        invariant forall j :: 0 <= j < i ==> !(records[j].name == name && IsLive(records[j]))
      {
        if records[i].name == name && IsLive(records[i]) { return true; }
      }
      return false;
    }

    method RevokeToken(idOrName: string, at: int) returns (r: Result<nat>)
      modifies this
      ensures file == Revoke(old(file), idOrName, at)
      ensures r == match ReadFile(old(file)) case Ok(records) => Ok(HowMany(records, idOrName)) case Err(p) => Err(p)
    {
      var data := ReadTokenFile();
      if data.Err? { return Err(data.problem); }
      var records, n := data.value, 0;
      for i := 0 to |records|
        invariant |records| == |data.value| && records[i..] == data.value[i..]
        invariant forall j :: 0 <= j < i ==> records[j] == RevokeOne(data.value[j], idOrName, at)
        invariant n == HowMany(data.value[..i], idOrName)
      {
        assert data.value[..i + 1][..i] == data.value[..i];
        assert records[i] == records[i..][0] == data.value[i];
        if Answers(records[i], idOrName) {
          records := records[i := records[i].(revokedAt := Some(at))];
          n := n + 1;
        }
      }
      assert data.value[..|records|] == data.value;
      assert records == RevokeAll(data.value, idOrName, at);
      if n > 0 { file := Holding(records); }
      return Ok(n);
    }
  }
}
