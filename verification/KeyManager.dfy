/**
  API keys: a table of hashed keys found through an index of key prefixes, revoked at once and for good, with the
  scope of each key checked on every call.  Characters of keys are bytes.
*/
module KeyManager {
  import opened Text
  import opened Glob

  // ---- Plain keys ---------------------------------------------------------------------------

  /** Letters and digits that cannot be taken for one another. */
  const ALPHABET := "abcdefghijkmnpqrstuvwxyz23456789"

  const PREFIX_LEN: nat := 8
  const SECRET_LEN: nat := 24

  /** The first eleven characters of a key: what the table is indexed by. */
  function PrefixOf(bearer: string): Option<string> {
    if !("lm-" <= bearer) || |bearer| < 3 + PREFIX_LEN then None else Some(bearer[..3 + PREFIX_LEN])
  }

  predicate WellFormed(key: string) {
    && |key| == 3 + PREFIX_LEN + SECRET_LEN && key[..3] == "lm-"
    && forall i | 3 <= i < |key| :: key[i] in ALPHABET
  }

  /** A key from the random draws; its prefix is the one it is looked up by. */
  method Generate(draws: seq<nat>) returns (plaintext: string, prefix: string)
    requires |draws| == PREFIX_LEN + SECRET_LEN && forall i | 0 <= i < |draws| :: draws[i] < |ALPHABET|
    ensures WellFormed(plaintext) && PrefixOf(plaintext) == Some(prefix)
    ensures forall i | 0 <= i < |draws| :: plaintext[3 + i] == ALPHABET[draws[i]]
    ensures prefix == plaintext[..11]
  {
    var chars: string := "";
    var i := 0;
    while i < |draws|
      invariant 0 <= i == |chars| <= |draws|
      invariant forall k | 0 <= k < i :: chars[k] == ALPHABET[draws[k]]
    {
      chars := chars + [ALPHABET[draws[i]]];
      i := i + 1;
    }
    prefix := "lm-" + chars[..PREFIX_LEN];
    plaintext := prefix + chars[PREFIX_LEN..];
    assert plaintext == "lm-" + chars;
    assert plaintext[..3] == "lm-";
    forall k | 3 <= k < |plaintext| ensures plaintext[k] in ALPHABET {
      assert plaintext[k] == ALPHABET[draws[k - 3]];
    }
  }

  // ---- Scopes -------------------------------------------------------------------------------

  datatype Expiry = At(time: int) | Unreadable

  datatype Scope = Scope(models: seq<string>, endpoints: seq<string>, allowedOrigins: seq<string>,
                         expiresAt: Option<Expiry>, enabledPipelines: Option<seq<string>>)

  /** An expiry that cannot be read has passed. */
  predicate IsExpired(scope: Scope, now: int) {
    match scope.expiresAt
    case None => false
    case Some(At(time)) => now >= time
    case Some(Unreadable) => true
  }

  // ---- The table ----------------------------------------------------------------------------

  datatype Row = Row(id: string, alias: string, prefix: string, hash: string, scope: Scope, createdAt: int,
                     lastUsedAt: Option<int>, revokedAt: Option<int>)

  datatype Result = Ok | NotFound | NotRevoked | Duplicate

  function Live(rows: seq<Row>): seq<Row> {
    if rows == [] then []
    else
      var n := |rows| - 1;
      Live(rows[..n]) + if rows[n].revokedAt.None? then [rows[n]] else []
  }

  /** The live rows with a prefix. */
  function Lookup(rows: seq<Row>, prefix: string): seq<Row> {
    if rows == [] then []
    else
      var n := |rows| - 1;
      Lookup(rows[..n], prefix) + if rows[n].prefix == prefix && rows[n].revokedAt.None? then [rows[n]] else []
  }

  predicate Has(rows: seq<Row>, id: string) {
    exists r | r in rows :: r.id == id
  }

  /** Revoked now; an earlier revocation keeps its time. */
  function RevokedRow(r: Row, at: int): Row {
    if r.revokedAt.None? then r.(revokedAt := Some(at)) else r
  }

  function Revoked(rows: seq<Row>, id: string, at: int): seq<Row> {
    seq(|rows|, i requires 0 <= i < |rows| => if rows[i].id == id then RevokedRow(rows[i], at) else rows[i])
  }

  function Touched(rows: seq<Row>, id: string, at: int): seq<Row> {
    seq(|rows|, i requires 0 <= i < |rows| => if rows[i].id == id then rows[i].(lastUsedAt := Some(at)) else rows[i])
  }

  function Rescoped(rows: seq<Row>, id: string, scope: Scope): seq<Row> {
    seq(|rows|, i requires 0 <= i < |rows| => if rows[i].id == id then rows[i].(scope := scope) else rows[i])
  }

  function Repiped(rows: seq<Row>, id: string, pipelines: Option<seq<string>>): seq<Row> {
    seq(|rows|, i requires 0 <= i < |rows| =>
      if rows[i].id == id then rows[i].(scope := rows[i].scope.(enabledPipelines := pipelines)) else rows[i])
  }

  function Without(rows: seq<Row>, id: string): seq<Row> {
    if rows == [] then []
    else
      var n := |rows| - 1;
      Without(rows[..n], id) + if rows[n].id == id then [] else [rows[n]]
  }

  /** The id is the primary key. */
  predicate UniqueIds(rows: seq<Row>) {
    forall i, j | 0 <= i < j < |rows| :: rows[i].id != rows[j].id
  }

  /** Who may call with which key, and what is revoked, is the same at every index. */
  predicate SameKeys(a: seq<Row>, b: seq<Row>) {
    && |a| == |b|
    && forall i | 0 <= i < |a| ::
         && a[i].id == b[i].id && a[i].alias == b[i].alias && a[i].prefix == b[i].prefix && a[i].hash == b[i].hash
         && a[i].createdAt == b[i].createdAt && a[i].revokedAt == b[i].revokedAt
  }

  predicate RevokedIn(rows: seq<Row>, id: string) {
    forall r | r in rows && r.id == id :: r.revokedAt.Some?
  }

  class KeyStore {
    var rows: seq<Row>

    predicate Valid()
      reads this
    {
      UniqueIds(rows)
    }

    constructor ()
      ensures Valid() && rows == []
    {
      rows := [];
    }

    method Insert(row: Row) returns (r: Result)
      requires Valid()
      modifies this
      ensures Valid()
      ensures rows == if Has(old(rows), row.id) then old(rows) else old(rows) + [row]
      ensures r == if Has(old(rows), row.id) then Duplicate else Ok
    {
      if exists x | x in rows :: x.id == row.id {
        return Duplicate;
      }
      rows := rows + [row];
      r := Ok;
    }

    method FindByPrefix(prefix: string) returns (found: seq<Row>)
      ensures found == Lookup(rows, prefix)
    {
      found := [];
      var i := 0;
      while i < |rows|
        invariant 0 <= i <= |rows| && found == Lookup(rows[..i], prefix)
      {
        assert rows[..i + 1][..i] == rows[..i];
        if rows[i].prefix == prefix && rows[i].revokedAt.None? {
          found := found + [rows[i]];
        }
        i := i + 1;
      }
      assert rows[..i] == rows;
    }

    method FindById(id: string) returns (found: Option<Row>)
      requires Valid()
      ensures found.None? <==> !Has(rows, id)
      ensures found.Some? ==>
                && found.value in rows && found.value.id == id
                && forall r | r in rows && r.id == id :: r == found.value
    {
      var i := 0;
      while i < |rows|
        invariant 0 <= i <= |rows| && forall k | 0 <= k < i :: rows[k].id != id
      {
        if rows[i].id == id {
          return Some(rows[i]);
        }
        i := i + 1;
      }
      found := None;
    }

    /** Idempotent: a second revocation changes nothing. */
    method Revoke(id: string, at: int) returns (r: Result)
      requires Valid()
      modifies this
      ensures Valid()
      ensures rows == Revoked(old(rows), id, at) && |rows| == |old(rows)|
      ensures forall i | 0 <= i < |rows| :: var was := old(rows)[i];
                rows[i] == if was.id == id && was.revokedAt.None? then was.(revokedAt := Some(at)) else was
      ensures r == if Has(old(rows), id) then Ok else NotFound
    {
      var n := 0;
      var i := 0;
      while i < |rows|
        invariant 0 <= i <= |rows| == |old(rows)|
        invariant n > 0 ==> Has(old(rows), id)
        invariant forall k | 0 <= k < i ::
                    rows[k] == if old(rows)[k].id == id then RevokedRow(old(rows)[k], at) else old(rows)[k]
        invariant forall k | i <= k < |rows| :: rows[k] == old(rows)[k]
      {
        if rows[i].id == id && rows[i].revokedAt.None? {
          rows := rows[i := rows[i].(revokedAt := Some(at))];
          n := n + 1;
        }
        i := i + 1;
      }
      r := Ok;
      if n == 0 {
        assert rows == Revoked(old(rows), id, at);
        IdsStay(old(rows), id, at);
        if !exists x | x in rows :: x.id == id {
          return NotFound;
        }
      }
    }

    /** Only a revoked key may be deleted. */
    method Delete(id: string) returns (r: Result)
      requires Valid()
      modifies this
      ensures Valid()
      ensures r == if !Has(old(rows), id) then NotFound else if RevokedIn(old(rows), id) then Ok else NotRevoked
      ensures rows == if r.Ok? then Without(old(rows), id) else old(rows)
    {
      var found := FindById(id);
      if found.None? {
        return NotFound;
      }
      if found.value.revokedAt.None? {
        return NotRevoked;
      }
      var kept: seq<Row> := [];
      var i := 0;
      while i < |rows|
        invariant 0 <= i <= |rows| && rows == old(rows) && kept == Without(rows[..i], id)
      {
        assert rows[..i + 1][..i] == rows[..i];
        if rows[i].id != id {
          kept := kept + [rows[i]];
        }
        i := i + 1;
      }
      assert rows[..i] == rows;
      WithoutIsUnique(rows, id);
      rows := kept;
      r := Ok;
    }

    /** Also of a revoked key; all else stays. */
    method UpdateScope(id: string, scope: Scope) returns (r: Result)
      requires Valid()
      modifies this
      ensures Valid()
      ensures rows == Rescoped(old(rows), id, scope) && SameKeys(old(rows), rows)
      ensures forall i | 0 <= i < |rows| ::
                && rows[i].lastUsedAt == old(rows)[i].lastUsedAt
                && if rows[i].id == id then rows[i].scope == scope else rows[i] == old(rows)[i]
      ensures r == if Has(old(rows), id) then Ok else NotFound
    {
      r := if exists x | x in rows :: x.id == id then Ok else NotFound;
      rows := Rescoped(rows, id, scope);
    }

    /** The rest of the scope stays. */
    method UpdateEnabledPipelines(id: string, pipelines: Option<seq<string>>) returns (r: Result)
      requires Valid()
      modifies this
      ensures Valid()
      ensures rows == Repiped(old(rows), id, pipelines) && SameKeys(old(rows), rows)
      ensures forall i | 0 <= i < |rows| :: var was := old(rows)[i];
                if was.id != id then rows[i] == was
                else rows[i] == was.(scope := was.scope.(enabledPipelines := pipelines))
      ensures r == if Has(old(rows), id) then Ok else NotFound
    {
      var found := FindById(id);
      if found.None? {
        assert rows == Repiped(rows, id, pipelines);
        return NotFound;
      }
      var scope := found.value.scope.(enabledPipelines := pipelines);
      rows := Rescoped(rows, id, scope);
      r := Ok;
    }

    /** Nothing happens when the row is gone. */
    method TouchLastUsed(id: string, at: int)
      requires Valid()
      modifies this
      ensures Valid()
      ensures rows == Touched(old(rows), id, at) && SameKeys(old(rows), rows)
      ensures forall i | 0 <= i < |rows| ::
                && rows[i].scope == old(rows)[i].scope
                && if rows[i].id == id then rows[i].lastUsedAt == Some(at) else rows[i] == old(rows)[i]
    {
      rows := Touched(rows, id, at);
    }
  }

  lemma {:induction false} WithoutIsUnique(rows: seq<Row>, id: string)
    requires UniqueIds(rows)
    ensures UniqueIds(Without(rows, id)) && forall r | r in Without(rows, id) :: r in rows
  {
    if rows != [] {
      var n := |rows| - 1;
      WithoutIsUnique(rows[..n], id);
      LastIdIsNew(rows);
    }
  }

  lemma LastIdIsNew(rows: seq<Row>)
    requires UniqueIds(rows) && rows != []
    ensures
      var n := |rows| - 1;
      UniqueIds(rows[..n]) && rows[n] in rows && forall r | r in rows[..n] :: r in rows && r.id != rows[n].id
  {
  }

  lemma IdsStay(rows: seq<Row>, id: string, at: int)
    ensures Has(Revoked(rows, id, at), id) <==> Has(rows, id)
  {
    var more := Revoked(rows, id, at);
    if Has(rows, id) {
      var r :| r in rows && r.id == id;
      var i :| 0 <= i < |rows| && rows[i] == r;
      assert more[i].id == id && more[i] in more;
    }
    if Has(more, id) {
      var r :| r in more && r.id == id;
      var i :| 0 <= i < |more| && more[i] == r;
      assert rows[i].id == id && rows[i] in rows;
    }
  }

  // ---- Verifying ----------------------------------------------------------------------------

  datatype AuthOutcome =
    | Allowed(id: string, alias: string, enabledPipelines: Option<seq<string>>)
    | InvalidKey
    | KeyRevoked
    | Expired
    | OriginDenied
    | EndpointDenied
    | ModelDenied

  datatype Verdict = Outcome(outcome: AuthOutcome) | HashFailed

  datatype Query = Query(bearer: string, origin: Option<string>, path: string, model: Option<string>, now: int)

  /** What the scope says of a call with the right key. */
  function Judge(row: Row, q: Query): AuthOutcome {
    if row.revokedAt.Some? then KeyRevoked
    else if IsExpired(row.scope, q.now) then Expired
    else if row.scope.allowedOrigins != [] && (q.origin.None? || q.origin.value !in row.scope.allowedOrigins) then
      OriginDenied
    else if !AnyMatch(row.scope.endpoints, q.path) then EndpointDenied
    else if q.model.Some? && !AnyMatch(row.scope.models, q.model.value) then ModelDenied
    else Allowed(row.id, row.alias, row.scope.enabledPipelines)
  }

  /** The first row whose hash is that of the bearer decides. */
  function Decide(check: (string, string) -> Option<bool>, candidates: seq<Row>, q: Query): Verdict {
    if candidates == [] then Outcome(InvalidKey)
    else match check(candidates[0].hash, q.bearer)
      case None => HashFailed
      case Some(true) => Outcome(Judge(candidates[0], q))
      case Some(false) => Decide(check, candidates[1..], q)
  }

  /** A look into the index, and a decision on what was found. */
  function Verified(check: (string, string) -> Option<bool>, rows: seq<Row>, q: Query): Verdict {
    match PrefixOf(q.bearer)
    case None => Outcome(InvalidKey)
    case Some(prefix) => Decide(check, Lookup(rows, prefix), q)
  }

  predicate IsAllowed(v: Verdict) { v.Outcome? && v.outcome.Allowed? }

  datatype Issued = Key(id: string, plaintext: string, prefix: string) | EmptyAlias | NotStored

  class KeyManager {
    const store: KeyStore
    /** Whether a plaintext is the one a hash was made of; none when the hash cannot be read. */
    const check: (string, string) -> Option<bool>

    constructor (check: (string, string) -> Option<bool>)
      ensures this.check == check && fresh(store) && store.Valid() && store.rows == []
    {
      this.check := check;
      store := new KeyStore();
    }

    method Issue(alias: string, scope: Scope, id: string, draws: seq<nat>, hash: string -> string,
                 now: int) returns (r: Issued)
      requires |draws| == PREFIX_LEN + SECRET_LEN && forall i | 0 <= i < |draws| :: draws[i] < |ALPHABET|
      requires store.Valid()
      modifies store
      ensures store.Valid()
      ensures Trim(alias) == "" ==> r == EmptyAlias
      ensures Trim(alias) != "" && Has(old(store.rows), id) ==> r == NotStored
      ensures !r.Key? ==> store.rows == old(store.rows)
      ensures Trim(alias) != "" && !Has(old(store.rows), id) ==>
                && r.Key? && r.id == id && WellFormed(r.plaintext) && PrefixOf(r.plaintext) == Some(r.prefix)
                && store.rows == old(store.rows) + [Row(id, alias, r.prefix, hash(r.plaintext), scope, now, None, None)]
    {
      hide Trim;
      if Trim(alias) == "" {
        return EmptyAlias;
      }
      var plaintext, prefix := Generate(draws);
      var done := store.Insert(Row(id, alias, prefix, hash(plaintext), scope, now, None, None));
      if !done.Ok? {
        return NotStored;
      }
      r := Key(id, plaintext, prefix);
    }

    /** Undisturbed: the decision on the rows as they are, and a time stamp for an allowed call. */
    method Verify(q: Query) returns (v: Verdict)
      requires store.Valid()
      modifies store
      ensures store.Valid()
      ensures v == Verified(check, old(store.rows), q)
      ensures store.rows == if IsAllowed(v) then Touched(old(store.rows), v.outcome.id, q.now) else old(store.rows)
    {
      hide IsExpired, AnyMatch, Touched;
      var prefix := PrefixOf(q.bearer);
      if prefix.None? {
        return Outcome(InvalidKey);
      }
      var candidates := store.FindByPrefix(prefix.value);
      var i := 0;
      assert candidates[0..] == candidates;
      while i < |candidates|
        invariant 0 <= i <= |candidates| && store.rows == old(store.rows) && store.Valid()
        invariant Decide(check, candidates, q) == Decide(check, candidates[i..], q)
      {
        var row := candidates[i];
        assert candidates[i..][0] == row && candidates[i..][1..] == candidates[i + 1..];
        var same := check(row.hash, q.bearer);
        if same.None? {
          return HashFailed;
        }
        if !same.value {
          i := i + 1;
          continue;
        }
        if row.revokedAt.Some? {
          return Outcome(KeyRevoked);
        }
        if IsExpired(row.scope, q.now) {
          return Outcome(Expired);
        }
        if row.scope.allowedOrigins != [] {
          if q.origin.None? || q.origin.value !in row.scope.allowedOrigins {
            return Outcome(OriginDenied);
          }
        }
        if !AnyMatch(row.scope.endpoints, q.path) {
          return Outcome(EndpointDenied);
        }
        if q.model.Some? && !AnyMatch(row.scope.models, q.model.value) {
          return Outcome(ModelDenied);
        }
        store.TouchLastUsed(row.id, q.now);
        return Outcome(Allowed(row.id, row.alias, row.scope.enabledPipelines));
      }
      v := Outcome(InvalidKey);
    }
  }

  // ---- The index and the full table ---------------------------------------------------------

  /** An ideal hash: it says yes to the plaintext of its key and no to everything else. */
  ghost predicate Genuine(check: (string, string) -> Option<bool>, row: Row, plain: string) {
    PrefixOf(plain) == Some(row.prefix) && forall p :: check(row.hash, p) == Some(p == plain)
  }

  /** Every row was issued for its plaintext. */
  ghost predicate AllGenuine(check: (string, string) -> Option<bool>, rows: seq<Row>, plains: map<string, string>) {
    forall r | r in rows :: r.id in plains && Genuine(check, r, plains[r.id])
  }

  lemma {:induction false} DecideSkips(check: (string, string) -> Option<bool>, a: seq<Row>, r: Row, q: Query)
    requires check(r.hash, q.bearer) == Some(false)
    ensures Decide(check, a + [r], q) == Decide(check, a, q)
  {
    if a == [] {
      assert ([] + [r])[1..] == [];
    } else {
      assert (a + [r])[1..] == a[1..] + [r];
      DecideSkips(check, a[1..], r, q);
    }
  }

  lemma {:induction false} DecideAppend(check: (string, string) -> Option<bool>, a: seq<Row>, b: seq<Row>, r: Row,
                                        q: Query)
    requires Decide(check, a, q) == Decide(check, b, q)
    ensures Decide(check, a + [r], q) == Decide(check, b + [r], q)
    decreases |a| + |b|
  {
    hide IsExpired, AnyMatch;
    if a != [] && check(a[0].hash, q.bearer) == Some(false) {
      assert (a + [r])[1..] == a[1..] + [r];
      DecideAppend(check, a[1..], b, r, q);
    } else if b != [] && check(b[0].hash, q.bearer) == Some(false) {
      assert (b + [r])[1..] == b[1..] + [r];
      DecideAppend(check, a, b[1..], r, q);
    }
  }

  /**
    Finding candidates through the prefix gives, for every query, the same verdict as trying every live key; for a
    bearer without a prefix no live key says yes either.
   */
  lemma {:induction false} PrefixIsFullScan(check: (string, string) -> Option<bool>, rows: seq<Row>,
                                            plains: map<string, string>, q: Query)
    requires AllGenuine(check, rows, plains)
    ensures Verified(check, rows, q) == Decide(check, Live(rows), q)
  {
    hide Judge;
    if rows != [] {
      var n := |rows| - 1;
      var r := rows[n];
      assert r in rows && forall x | x in rows[..n] :: x in rows;
      PrefixIsFullScan(check, rows[..n], plains, q);
      assert Genuine(check, r, plains[r.id]);
      assert check(r.hash, q.bearer) == Some(q.bearer == plains[r.id]);
      if r.revokedAt.Some? {
        NothingMore(Live(rows[..n]));
        if PrefixOf(q.bearer).Some? { NothingMore(Lookup(rows[..n], PrefixOf(q.bearer).value)); }
      } else if PrefixOf(q.bearer).Some? && r.prefix == PrefixOf(q.bearer).value {
        DecideAppend(check, Lookup(rows[..n], r.prefix), Live(rows[..n]), r, q);
      } else {
        if PrefixOf(q.bearer).Some? { NothingMore(Lookup(rows[..n], PrefixOf(q.bearer).value)); }
        DecideSkips(check, Live(rows[..n]), r, q);
      }
    }
  }

  lemma NothingMore(rows: seq<Row>)
    ensures rows + [] == rows
  {
  }

  lemma {:induction false} LookupFinds(rows: seq<Row>, prefix: string, r: Row)
    ensures r in Lookup(rows, prefix) <==> r in rows && r.prefix == prefix && r.revokedAt.None?
  {
    if rows != [] {
      var n := |rows| - 1;
      LookupFinds(rows[..n], prefix, r);
      assert rows == rows[..n] + [rows[n]];
    }
  }

  /** The verdict is that of the one candidate with the bearer's plaintext, if there is one. */
  lemma {:induction false} DecideOne(check: (string, string) -> Option<bool>, candidates: seq<Row>,
                                     plains: map<string, string>, q: Query)
    requires AllGenuine(check, candidates, plains)
    ensures
      var v := Decide(check, candidates, q);
      || (v == Outcome(InvalidKey) && forall r | r in candidates :: plains[r.id] != q.bearer)
      || exists r | r in candidates :: plains[r.id] == q.bearer && v == Outcome(Judge(r, q))
  {
    hide Judge;
    if candidates != [] {
      var r := candidates[0];
      assert Genuine(check, r, plains[r.id]);
      assert check(r.hash, q.bearer) == Some(q.bearer == plains[r.id]);
      if q.bearer != plains[r.id] {
        assert forall x | x in candidates[1..] :: x in candidates;
        DecideOne(check, candidates[1..], plains, q);
        assert candidates == [r] + candidates[1..];
      }
    }
  }

  /** No two rows were issued for the same plaintext. */
  ghost predicate DistinctKeys(rows: seq<Row>, plains: map<string, string>) {
    forall r, x | r in rows && x in rows && r.id in plains && x.id in plains && plains[r.id] == plains[x.id] :: r == x
  }

  // ---- What a scope admits ------------------------------------------------------------------

  /** The key has no end, or one that can be read and is yet to come. */
  predicate InTime(scope: Scope, now: int) {
    scope.expiresAt.None? || (scope.expiresAt.value.At? && now < scope.expiresAt.value.time)
  }

  /** A key for certain origins only asks for one of them. */
  predicate FromOrigin(scope: Scope, origin: Option<string>) {
    scope.allowedOrigins == [] || exists o | o in scope.allowedOrigins :: origin == Some(o)
  }

  predicate ToEndpoint(scope: Scope, path: string) {
    exists i | 0 <= i < |scope.endpoints| :: Match(scope.endpoints[i], path)
  }

  predicate ForModel(scope: Scope, model: Option<string>) {
    model.Some? ==> exists i | 0 <= i < |scope.models| :: Match(scope.models[i], model.value)
  }

  predicate Admits(scope: Scope, q: Query) {
    InTime(scope, q.now) && FromOrigin(scope, q.origin) && ToEndpoint(scope, q.path) && ForModel(scope, q.model)
  }

  lemma AnyIsSome(patterns: seq<string>, input: string)
    ensures AnyMatch(patterns, input) <==> exists i | 0 <= i < |patterns| :: Match(patterns[i], input)
  {
    hide Match;
    if AnyMatch(patterns, input) {
      var p :| p in patterns && Match(p, input);
      var i :| 0 <= i < |patterns| && patterns[i] == p;
    }
  }

  /** A live key is judged by the first of the four conditions that fails. */
  lemma JudgedInOrder(row: Row, q: Query)
    requires row.revokedAt.None?
    ensures
      var v, s := Judge(row, q), row.scope;
      && (v.Expired? <==> !InTime(s, q.now))
      && (v.OriginDenied? <==> InTime(s, q.now) && !FromOrigin(s, q.origin))
      && (v.EndpointDenied? <==> InTime(s, q.now) && FromOrigin(s, q.origin) && !ToEndpoint(s, q.path))
      && (v.ModelDenied? <==>
            InTime(s, q.now) && FromOrigin(s, q.origin) && ToEndpoint(s, q.path) && !ForModel(s, q.model))
      && (v.Allowed? <==> Admits(s, q)) && (v.Allowed? ==> v == Allowed(row.id, row.alias, s.enabledPipelines))
  {
    AnyIsSome(row.scope.endpoints, q.path);
    if q.model.Some? { AnyIsSome(row.scope.models, q.model.value); }
    hide Match, AnyMatch;
  }

  /**
    The bearer of a live key is told why it may not call: that it is too late, from where it calls, what it calls, or
    with which model, in this order; and if nothing of this holds it may, as whom and with which pipelines.
   */
  lemma VerdictOfLiveKey(check: (string, string) -> Option<bool>, rows: seq<Row>, plains: map<string, string>,
                         q: Query, r: Row)
    requires AllGenuine(check, rows, plains) && DistinctKeys(rows, plains)
    requires r in rows && r.revokedAt.None? && plains[r.id] == q.bearer
    ensures
      Verified(check, rows, q) ==
      Outcome(if !InTime(r.scope, q.now) then Expired
              else if !FromOrigin(r.scope, q.origin) then OriginDenied
              else if !ToEndpoint(r.scope, q.path) then EndpointDenied
              else if !ForModel(r.scope, q.model) then ModelDenied
              else Allowed(r.id, r.alias, r.scope.enabledPipelines))
  {
    hide Judge, Lookup, InTime, FromOrigin, ToEndpoint, ForModel;
    assert Genuine(check, r, plains[r.id]);
    forall x ensures x in Lookup(rows, r.prefix) <==> x in rows && x.prefix == r.prefix && x.revokedAt.None? {
      LookupFinds(rows, r.prefix, x);
    }
    DecideOne(check, Lookup(rows, r.prefix), plains, q);
    assert r in Lookup(rows, r.prefix);
    JudgedInOrder(r, q);
    LiveIsNotRevoked(r, q);
  }

  lemma LiveIsNotRevoked(r: Row, q: Query)
    requires r.revokedAt.None?
    ensures !Judge(r, q).KeyRevoked? && !Judge(r, q).InvalidKey?
  {
    hide AnyMatch, IsExpired;
  }

  /** A call is allowed if and only if its bearer is the key of a live row whose scope admits the call. */
  lemma {:induction false} VerifyIsExact(check: (string, string) -> Option<bool>, rows: seq<Row>,
                                         plains: map<string, string>, q: Query, id: string)
    requires AllGenuine(check, rows, plains) && DistinctKeys(rows, plains)
    ensures
      (IsAllowed(Verified(check, rows, q)) && Verified(check, rows, q).outcome.id == id) <==>
      exists r | r in rows :: r.id == id && r.revokedAt.None? && plains[id] == q.bearer && Admits(r.scope, q)
  {
    forall r: Row | r.revokedAt.None?
      ensures Judge(r, q).Allowed? <==> Admits(r.scope, q)
      ensures Judge(r, q).Allowed? ==> Judge(r, q).id == r.id
    {
      JudgedInOrder(r, q);
    }
    hide Judge, Admits, Lookup;
    if PrefixOf(q.bearer).Some? {
      var prefix := PrefixOf(q.bearer).value;
      forall r ensures r in Lookup(rows, prefix) <==> r in rows && r.prefix == prefix && r.revokedAt.None? {
        LookupFinds(rows, prefix, r);
      }
      DecideOne(check, Lookup(rows, prefix), plains, q);
    }
    forall r | r in rows ensures Genuine(check, r, plains[r.id]) {}
  }

  /** A revoked key is not even a candidate: its bearer is told that the key is invalid, never that it was revoked. */
  lemma RevokedIsInvalid(check: (string, string) -> Option<bool>, rows: seq<Row>, plains: map<string, string>,
                         q: Query, r: Row)
    requires AllGenuine(check, rows, plains) && DistinctKeys(rows, plains)
    requires r in rows && r.revokedAt.Some? && plains[r.id] == q.bearer
    ensures Verified(check, rows, q) == Outcome(InvalidKey)
  {
    hide Judge, Lookup;
    if PrefixOf(q.bearer).Some? {
      var prefix := PrefixOf(q.bearer).value;
      forall x ensures x in Lookup(rows, prefix) <==> x in rows && x.prefix == prefix && x.revokedAt.None? {
        LookupFinds(rows, prefix, x);
      }
      DecideOne(check, Lookup(rows, prefix), plains, q);
    }
  }

  // ---- Whole runs ---------------------------------------------------------------------------

  /** The table, and all ids ever issued. */
  datatype Table = Table(rows: seq<Row>, used: set<string>)

  /** The steps of all operations; a verification is a look at the rows and, some time later, a touch. */
  datatype Action =
    | Insert(row: Row)
    | Revoke(id: string, at: int)
    | Delete(id: string)
    | UpdateScope(id: string, scope: Scope)
    | UpdatePipelines(id: string, pipelines: Option<seq<string>>)
    | Touch(id: string, at: int)

  /** Ids are fresh, as random ones are. */
  function Do(t: Table, a: Action): Table {
    match a
    case Insert(row) => if row.id in t.used then t else Table(t.rows + [row], t.used + {row.id})
    case Revoke(id, at) => t.(rows := Revoked(t.rows, id, at))
    case Delete(id) => if Has(t.rows, id) && RevokedIn(t.rows, id) then t.(rows := Without(t.rows, id)) else t
    case UpdateScope(id, scope) => t.(rows := Rescoped(t.rows, id, scope))
    case UpdatePipelines(id, pipelines) => t.(rows := Repiped(t.rows, id, pipelines))
    case Touch(id, at) => t.(rows := Touched(t.rows, id, at))
  }

  function After(t: Table, actions: seq<Action>): Table
    decreases |actions|
  {
    if actions == [] then t else After(Do(t, actions[0]), actions[1..])
  }

  /** Issued, and not live: revoked or deleted. */
  predicate Dead(t: Table, id: string) { id in t.used && RevokedIn(t.rows, id) }

  /** Issued, and deleted. */
  predicate Gone(t: Table, id: string) { id in t.used && !Has(t.rows, id) }

  lemma {:induction false} WithoutRows(rows: seq<Row>, id: string, r: Row)
    ensures r in Without(rows, id) <==> r in rows && r.id != id
  {
    if rows != [] {
      var n := |rows| - 1;
      WithoutRows(rows[..n], id, r);
      assert rows == rows[..n] + [rows[n]];
    }
  }

  /** No step makes a dead key live again, or brings back a deleted row. */
  lemma DeadStaysDead(t: Table, a: Action, id: string)
    ensures Dead(t, id) ==> Dead(Do(t, a), id)
    ensures Gone(t, id) ==> Gone(Do(t, a), id)
  {
    if a.Delete? {
      forall r ensures r in Without(t.rows, a.id) <==> r in t.rows && r.id != a.id {
        WithoutRows(t.rows, a.id, r);
      }
    } else if !a.Insert? {
      var rows := Do(t, a).rows;
      assert |rows| == |t.rows|;
      assert forall i | 0 <= i < |rows| ::
               rows[i].id == t.rows[i].id && (t.rows[i].revokedAt.Some? ==> rows[i].revokedAt.Some?);
      forall r | r in rows ensures exists x | x in t.rows :: x.id == r.id && (x.revokedAt.Some? ==> r.revokedAt.Some?) {
        var i :| 0 <= i < |rows| && rows[i] == r;
        assert t.rows[i] in t.rows;
      }
    }
  }

  lemma RevokeKills(t: Table, id: string, at: int)
    requires id in t.used
    ensures Dead(Do(t, Revoke(id, at)), id)
  {
    var rows := Revoked(t.rows, id, at);
    forall r | r in rows && r.id == id ensures r.revokedAt.Some? {
      var i :| 0 <= i < |rows| && rows[i] == r;
    }
  }

  lemma {:induction false} DeadForGood(t: Table, actions: seq<Action>, id: string)
    ensures Dead(t, id) ==> Dead(After(t, actions), id)
    ensures Gone(t, id) ==> Gone(After(t, actions), id)
    decreases |actions|
  {
    hide Do, Dead, Gone;
    if actions != [] {
      DeadStaysDead(t, actions[0], id);
      DeadForGood(Do(t, actions[0]), actions[1..], id);
    }
  }

  lemma DeadIsNeverAllowed(check: (string, string) -> Option<bool>, t: Table, q: Query, id: string)
    requires Dead(t, id)
    ensures !(IsAllowed(Verified(check, t.rows, q)) && Verified(check, t.rows, q).outcome.id == id)
  {
    if PrefixOf(q.bearer).Some? {
      var prefix := PrefixOf(q.bearer).value;
      forall r | r in Lookup(t.rows, prefix) ensures r.id != id {
        LookupFinds(t.rows, prefix, r);
      }
      hide Judge, Lookup;
      AllowedIsCandidate(check, Lookup(t.rows, prefix), q);
    }
  }

  lemma {:induction false} AllowedIsCandidate(check: (string, string) -> Option<bool>, candidates: seq<Row>, q: Query)
    ensures
      var v := Decide(check, candidates, q);
      IsAllowed(v) ==> exists r | r in candidates :: r.id == v.outcome.id
  {
    hide IsExpired, AnyMatch;
    if candidates != [] && check(candidates[0].hash, q.bearer) == Some(false) {
      AllowedIsCandidate(check, candidates[1..], q);
      assert forall r | r in candidates[1..] :: r in candidates;
    }
  }

  /**
    Whatever happens after a revocation, other issues, deletions, edits of its scope, touches by verifications begun
    before: no later look allows the key again.
   */
  lemma RevokedForGood(check: (string, string) -> Option<bool>, t: Table, id: string, at: int, after: seq<Action>,
                       q: Query)
    requires id in t.used
    ensures
      var rows := After(Do(t, Revoke(id, at)), after).rows;
      !(IsAllowed(Verified(check, rows, q)) && Verified(check, rows, q).outcome.id == id)
  {
    hide Do, Dead, Verified;
    RevokeKills(t, id, at);
    DeadForGood(Do(t, Revoke(id, at)), after, id);
    DeadIsNeverAllowed(check, After(Do(t, Revoke(id, at)), after), q, id);
  }

  /** A deleted row stays deleted, also when a verification begun before touches it late. */
  lemma DeletedForGood(t: Table, id: string, after: seq<Action>)
    requires id in t.used && Has(t.rows, id) && RevokedIn(t.rows, id)
    ensures !Has(After(Do(t, Delete(id)), after).rows, id)
  {
    forall r ensures r in Without(t.rows, id) <==> r in t.rows && r.id != id {
      WithoutRows(t.rows, id, r);
    }
    assert Gone(Do(t, Delete(id)), id);
    DeadForGood(Do(t, Delete(id)), after, id);
  }

  // ---- Tables that come from issuing --------------------------------------------------------

  const EMPTY := Table([], {})

  /** Every id stands for one plaintext. */
  predicate Distinct(plains: map<string, string>) {
    forall x, y | x in plains && y in plains && plains[x] == plains[y] :: x == y
  }

  /** A row is inserted only for a generated key: its prefix, and the hash of its plaintext. */
  ghost predicate IssuedFor(check: (string, string) -> Option<bool>, plains: map<string, string>, a: Action) {
    a.Insert? ==> a.row.id in plains && Genuine(check, a.row, plains[a.row.id])
  }

  /** What holds of every table that has come about by issuing: genuine rows, unique ids, all of them used. */
  ghost predicate WellIssued(check: (string, string) -> Option<bool>, plains: map<string, string>, t: Table) {
    AllGenuine(check, t.rows, plains) && UniqueIds(t.rows) && forall r | r in t.rows :: r.id in t.used
  }

  /** Every row comes from one with the same id, prefix and hash. */
  ghost predicate From(rows: seq<Row>, before: seq<Row>) {
    forall r | r in rows :: exists x | x in before :: x.id == r.id && x.prefix == r.prefix && x.hash == r.hash
  }

  lemma EditedFrom(rows: seq<Row>, before: seq<Row>)
    requires |rows| == |before| && UniqueIds(before)
    requires forall i | 0 <= i < |rows| ::
               rows[i].id == before[i].id && rows[i].prefix == before[i].prefix && rows[i].hash == before[i].hash
    ensures From(rows, before) && UniqueIds(rows)
  {
    forall r | r in rows
      ensures exists x | x in before :: x.id == r.id && x.prefix == r.prefix && x.hash == r.hash
    {
      var i :| 0 <= i < |rows| && rows[i] == r;
      assert before[i] in before;
    }
  }

  lemma StepIsWellIssued(check: (string, string) -> Option<bool>, plains: map<string, string>, t: Table, a: Action)
    requires WellIssued(check, plains, t) && IssuedFor(check, plains, a)
    ensures WellIssued(check, plains, Do(t, a))
  {
    var t' := Do(t, a);
    if a.Insert? {
      assert forall r | r in t'.rows :: r in t.rows || r == a.row;
    } else {
      if a.Delete? {
        WithoutIsUnique(t.rows, a.id);
      } else {
        EditedFrom(t'.rows, t.rows);
      }
      forall r | r in t'.rows
        ensures r.id in t.used && r.id in plains && Genuine(check, r, plains[r.id])
      {
        var x :| x in t.rows && x.id == r.id && x.prefix == r.prefix && x.hash == r.hash;
        assert Genuine(check, x, plains[x.id]);
      }
    }
  }

  lemma {:induction false} AfterIsWellIssued(check: (string, string) -> Option<bool>, plains: map<string, string>,
                                             t: Table, actions: seq<Action>)
    requires WellIssued(check, plains, t) && forall a | a in actions :: IssuedFor(check, plains, a)
    ensures WellIssued(check, plains, After(t, actions))
    decreases |actions|
  {
    hide WellIssued, IssuedFor, Do;
    if actions != [] {
      assert actions[0] in actions && forall a | a in actions[1..] :: a in actions;
      StepIsWellIssued(check, plains, t, actions[0]);
      AfterIsWellIssued(check, plains, Do(t, actions[0]), actions[1..]);
    }
  }

  /**
    In every run from the empty table whose rows are issued for distinct keys: the look through the prefix gives the
    verdict of trying every live key, and a call is allowed if and only if its bearer is the key of a live row whose
    scope admits the call.
   */
  lemma ReachableTables(check: (string, string) -> Option<bool>, plains: map<string, string>, actions: seq<Action>,
                        q: Query, id: string)
    requires Distinct(plains) && forall a | a in actions :: IssuedFor(check, plains, a)
    ensures
      var rows := After(EMPTY, actions).rows;
      var v := Verified(check, rows, q);
      && AllGenuine(check, rows, plains) && DistinctKeys(rows, plains) && UniqueIds(rows)
      && v == Decide(check, Live(rows), q)
      && (IsAllowed(v) && v.outcome.id == id <==>
            exists r | r in rows :: r.id == id && r.revokedAt.None? && plains[id] == q.bearer && Admits(r.scope, q))
      && ((exists r | r in rows :: r.revokedAt.Some? && plains[r.id] == q.bearer) ==> v == Outcome(InvalidKey))
  {
    var rows := After(EMPTY, actions).rows;
    AfterIsWellIssued(check, plains, EMPTY, actions);
    OneRowEach(check, rows, plains);
    hide Verified, Judge, Admits, After, Live, Decide;
    PrefixIsFullScan(check, rows, plains, q);
    VerifyIsExact(check, rows, plains, q, id);
    forall r | r in rows && r.revokedAt.Some? && plains[r.id] == q.bearer
      ensures Verified(check, rows, q) == Outcome(InvalidKey)
    {
      RevokedIsInvalid(check, rows, plains, q, r);
    }
  }

  lemma OneRowEach(check: (string, string) -> Option<bool>, rows: seq<Row>, plains: map<string, string>)
    requires AllGenuine(check, rows, plains) && UniqueIds(rows) && Distinct(plains)
    ensures DistinctKeys(rows, plains)
  {
    forall r, x | r in rows && x in rows && plains[r.id] == plains[x.id]
      ensures r == x
    {
      var i :| 0 <= i < |rows| && rows[i] == r;
      var j :| 0 <= j < |rows| && rows[j] == x;
      assert r.id == x.id;
    }
  }
}
