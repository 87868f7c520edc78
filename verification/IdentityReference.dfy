/** The directory of authors that the identity tables stand for: one profile for each author, and for each key and
    token whom it belongs to and when it was revoked. There are no pending rows, guards or cascades here; an
    operation is refused for a reason anyone can check beforehand, or takes place at once. The tables follow the
    directory over every run. */
module IdentityReference {
  import opened Wrappers
  import opened IdentityTables
  import opened IdentityLifecycle
  import opened IdentityService

  datatype Profile = Profile(
    subject: string, handle: string, fingerprint: string, credential: string, active: bool, revision: nat)

  datatype KeyRecord = KeyRecord(author: string, publicKey: string, revoked: Option<Time>)

  datatype TokenRecord = TokenRecord(author: string, token: Token, expires: Time, revoked: Option<Time>)

  datatype Directory = Directory(
    profiles: map<string, Profile>, keys: map<string, KeyRecord>, tokens: map<string, TokenRecord>, log: seq<Event>)

  const NOBODY: Directory := Directory(map[], map[], map[], [])

  // ---------- why an operation is refused ----------

  predicate Spent(d: Directory, q: Request) {
    exists i :: 0 <= i < |d.log| && d.log[i].actor == q.actor && d.log[i].idempotencyKey == q.idempotencyKey
  }

  predicate NameTaken(d: Directory, id: string, subject: string, handle: string) {
    id in d.profiles || exists a ::
        a in d.profiles && (d.profiles[a].subject == subject || d.profiles[a].handle == handle)
  }

  predicate KeyTaken(d: Directory, publicKey: string, fingerprint: string) {
    fingerprint in d.keys || exists f :: f in d.keys && d.keys[f].publicKey == publicKey
  }

  predicate Collides(digest: Token -> string, t: Token, u: Token) {
    t.lookup == u.lookup || digest(t) == digest(u)
  }

  predicate TokenTaken(digest: Token -> string, d: Directory, id: string, t: Token) {
    id in d.tokens || exists c :: c in d.tokens && Collides(digest, d.tokens[c].token, t)
  }

  /** Why an operation is refused, in the order of the checks. */
  function Refusal(digest: Token -> string, d: Directory, op: Operation): Option<IdentityError> {
    if op.Register? then
      if NameTaken(d, op.id, op.subject, op.handle) || KeyTaken(d, op.publicKey, op.fingerprint) ||
         TokenTaken(digest, d, op.credential, op.token) then Some(Duplicate)
      else if Spent(d, op.q) then Some(KeyReused)
      else None
    else if op.author !in d.profiles then Some(NotFound)
    else
      var p := d.profiles[op.author];
      if !p.active || (!op.Revoke? && p.revision != op.expected) then Some(InvalidTransition)
      else if op.ReplaceKey? && op.fingerprint == p.fingerprint then Some(InvalidTransition)
      else if op.ReplaceKey? && KeyTaken(d, op.publicKey, op.fingerprint) then Some(Duplicate)
      else if op.ReplaceCredential? && TokenTaken(digest, d, op.credential, op.token) then Some(Duplicate)
      else if Spent(d, op.q) then Some(KeyReused)
      else None
  }

  // ---------- what an operation does ----------

  function KeyRevoked(keys: map<string, KeyRecord>, f: string, at: Time): map<string, KeyRecord> {
    if f in keys then keys[f := keys[f].(revoked := Some(at))] else keys
  }

  function TokenRevoked(tokens: map<string, TokenRecord>, c: string, at: Time): map<string, TokenRecord> {
    if c in tokens then tokens[c := tokens[c].(revoked := Some(at))] else tokens
  }

  function Applied(d: Directory, op: Operation): Directory
    requires !op.Register? ==> op.author in d.profiles
  {
    match op
    case Register(id, subject, handle, publicKey, fingerprint, credential, token, expires, q) =>
      Directory(d.profiles[id := Profile(subject, handle, fingerprint, credential, true, 1)],
                d.keys[fingerprint := KeyRecord(id, publicKey, None)],
                d.tokens[credential := TokenRecord(id, token, expires, None)],
                d.log + [Event(id, 1, q.actor, q.idempotencyKey, Registered, None, Some(fingerprint), None,
                               Some(credential), q.at)])
    case ReplaceKey(author, publicKey, fingerprint, expected, q) =>
      var p := d.profiles[author];
      Directory(d.profiles[author := p.(fingerprint := fingerprint, revision := p.revision + 1)],
                KeyRevoked(d.keys, p.fingerprint, q.at)[fingerprint := KeyRecord(author, publicKey, None)],
                d.tokens,
                d.log + [Event(author, p.revision + 1, q.actor, q.idempotencyKey, KeyRotated, Some(p.fingerprint),
                               Some(fingerprint), None, None, q.at)])
    case ReplaceCredential(author, credential, token, expires, expected, q) =>
      var p := d.profiles[author];
      Directory(d.profiles[author := p.(credential := credential, revision := p.revision + 1)],
                d.keys,
                TokenRevoked(d.tokens, p.credential, q.at)[credential := TokenRecord(author, token, expires, None)],
                d.log + [Event(author, p.revision + 1, q.actor, q.idempotencyKey, CredentialRotated, None, None,
                               Some(p.credential), Some(credential), q.at)])
    case Revoke(author, q) =>
      var p := d.profiles[author];
      Directory(d.profiles[author := p.(active := false, revision := p.revision + 1)],
                KeyRevoked(d.keys, p.fingerprint, q.at), TokenRevoked(d.tokens, p.credential, q.at),
                d.log + [Event(author, p.revision + 1, q.actor, q.idempotencyKey, AuthorRevoked, Some(p.fingerprint),
                               None, Some(p.credential), None, q.at)])
  }

  function Tried(digest: Token -> string, d: Directory, op: Operation): Directory {
    if Refusal(digest, d, op).Some? then d else Applied(d, op)
  }

  function Directed(digest: Token -> string, ops: seq<Operation>): Directory {
    if ops == [] then NOBODY else Tried(digest, Directed(digest, ops[..|ops| - 1]), ops[|ops| - 1])
  }

  // ---------- the tables that stand for a directory ----------

  predicate AuthorMirrors(db: Db, d: Directory, a: string)
    requires a in db.authors && a in d.profiles
  {
    var p := d.profiles[a];
    && p.fingerprint in d.keys && p.credential in d.tokens
    && db.authors[a] == Author(p.subject, p.handle, d.keys[p.fingerprint].publicKey,
                               if p.active then Active else Revoked, p.revision)
    && Replay(db.audit, a) == Some(View(p.active, p.revision, p.fingerprint, p.credential))
  }

  function KeyRow(k: KeyRecord): Key {
    Key(k.author, k.publicKey, if k.revoked.None? then Active else Revoked, k.revoked)
  }

  function CredentialRow(digest: Token -> string, t: TokenRecord): Credential {
    Credential(t.author, t.token.lookup, digest(t.token), t.expires, if t.revoked.None? then Active else Revoked,
        t.revoked)
  }

  ghost predicate AuthorsMirror(db: Db, d: Directory) {
    db.authors.Keys == d.profiles.Keys && forall a | a in db.authors :: AuthorMirrors(db, d, a)
  }

  ghost predicate KeysMirror(db: Db, d: Directory) {
    db.keys.Keys == d.keys.Keys && forall f | f in db.keys :: db.keys[f] == KeyRow(d.keys[f])
  }

  ghost predicate TokensMirror(digest: Token -> string, db: Db, d: Directory) {
    db.credentials.Keys == d.tokens.Keys &&
        forall c | c in db.credentials :: db.credentials[c] == CredentialRow(digest, d.tokens[c])
  }

  /** The four tables are exactly the directory's, row by row and column by column. */
  ghost predicate Mirrors(digest: Token -> string, db: Db, d: Directory) {
    AuthorsMirror(db, d) && KeysMirror(db, d) && TokensMirror(digest, db, d) && db.audit == d.log
  }

  // ---------- the checks mean the same ----------

  lemma SpentAlike(db: Db, d: Directory, q: Request)
    requires db.audit == d.log
    ensures Spent(d, q) <==> !ActorKeyUnused(db.audit, q.actor, q.idempotencyKey)
  {
    if e :| e in db.audit && e.actor == q.actor && e.idempotencyKey == q.idempotencyKey {
      var i :| 0 <= i < |db.audit| && db.audit[i] == e;
    }
  }

  lemma KeyTakenAlike(db: Db, d: Directory, publicKey: string, fingerprint: string)
    requires KeysMirror(db, d)
    ensures KeyTaken(d, publicKey, fingerprint) <==> !KeyInsertable(db, publicKey, fingerprint)
  {
  }

  lemma TokenTakenAlike(digest: Token -> string, db: Db, d: Directory, id: string, t: Token)
    requires TokensMirror(digest, db, d)
    ensures TokenTaken(digest, d, id, t) <==> !CredentialInsertable(db, id, t.lookup, digest(t))
  {
    forall c | c in db.credentials
      ensures db.credentials[c].lookup == d.tokens[c].token.lookup &&
                db.credentials[c].hash == digest(d.tokens[c].token)
    {
    }
  }

  lemma NameTakenAlike(db: Db, d: Directory, r: Registration)
    requires AuthorsMirror(db, d) && KeysMirror(db, d) && !KeyTaken(d, r.publicKey, r.fingerprint)
    ensures NameTaken(d, r.id, r.subject, r.handle) <==> !AuthorInsertable(db, r)
  {
    forall a | a in db.authors
      ensures db.authors[a].subject == d.profiles[a].subject && db.authors[a].handle == d.profiles[a].handle
      ensures db.authors[a].publicKey != r.publicKey
    {
      assert AuthorMirrors(db, d, a);
    }
  }

  lemma CurrentAlike(digest: Token -> string, db: Db, d: Directory, a: string)
    requires Settled(db) && Mirrors(digest, db, d) && a in d.profiles
    ensures AuthorMirrors(db, d, a)
    ensures d.profiles[a].active ==> ActiveKey(db, a) == Some(d.profiles[a].fingerprint)
    ensures d.profiles[a].active ==> ActiveCredential(db, a) == Some(d.profiles[a].credential)
  {
    assert AuthorMirrors(db, d, a);
    SettledAuthor(db, a);
  }

  // ---------- one operation ----------

  /** What an operation makes of the tables, given what it makes of the directory. */
  ghost predicate Follows(digest: Token -> string, db: Db, d: Directory, op: Operation) {
    match Refusal(digest, d, op)
    case Some(e) => Attempt(digest, db, op) == Err(e)
    case None =>
      && Attempt(digest, db, op).Ok? && Mirrors(digest, Attempt(digest, db, op).value, Applied(d, op))
  }

  /** What becomes of an audit row inserted into the tables `p`. */
  ghost predicate Completes(p: Db, e: Event, r: Result<Db, IdentityError>) {
    && MetadataValid(e) && Owned(p, e) && (e.kind == AuthorRevoked ==> e.priorCredential.Some?)
    && r == if ActorKeyUnused(p.audit, e.actor, e.idempotencyKey) then Ok(After(p, e)) else Err(KeyReused)
  }

  lemma OwnedCompletes(p: Db, e: Event)
    requires Consistent(p) && MetadataValid(e) && Owned(p, e) && NumberUnused(p.audit, e.author, e.number)
    ensures Completes(p, e, InsertEvent(p, e))
  {
    CascadesComplete(p, e);
    if e.kind == AuthorRevoked {
      RevocationNamesCredential(p, e);
    }
  }

  /** An operation that gets as far as its audit row is refused for a used key, or the cascade completes. */
  lemma PreparedCompletes(digest: Token -> string, db: Db, op: Operation)
    requires Settled(db) && Prepared(digest, db, op).Some?
    ensures Completes(Prepared(digest, db, op).value.0, Prepared(digest, db, op).value.1, Attempt(digest, db, op))
  {
    PreparedInserts(digest, db, op);
    PreparedConsistent(digest, db, op);
    PreparedOwned(digest, db, op);
    OwnedCompletes(Prepared(digest, db, op).value.0, Prepared(digest, db, op).value.1);
  }

  /** The keys and tokens that profiles name stay, with the same public keys. */
  ghost predicate Extends(d: Directory, after: Directory) {
    && (forall f | f in d.keys :: f in after.keys && after.keys[f].publicKey == d.keys[f].publicKey)
    && (forall c | c in d.tokens :: c in after.tokens)
  }

  lemma AppliedExtends(d: Directory, op: Operation)
    requires !op.Register? ==> op.author in d.profiles
    requires op.Register? || op.ReplaceKey? ==> op.fingerprint !in d.keys
    requires op.Register? || op.ReplaceCredential? ==> op.credential !in d.tokens
    ensures Extends(d, Applied(d, op))
  {
  }

  /** An author that an audit row is not about looks as before. */
  lemma OtherMirrors(db: Db, after: Db, d: Directory, dAfter: Directory, e: Event, a: string)
    requires a in db.authors && a in d.profiles && AuthorMirrors(db, d, a) && a != e.author
    requires a in after.authors && after.authors[a] == db.authors[a] && after.audit == db.audit + [e]
    requires a in dAfter.profiles && dAfter.profiles[a] == d.profiles[a] && Extends(d, dAfter)
    ensures AuthorMirrors(after, dAfter, a)
  {
    ReplayAppended(db.audit, e, a);
  }

  /** The tables and the directory move together: one row of the log, and no author but the row's. */
  ghost predicate Abreast(db: Db, after: Db, d: Directory, dAfter: Directory, e: Event) {
    && after.audit == db.audit + [e] && dAfter.log == d.log + [e]
    && e.author in after.authors && after.authors == db.authors[e.author := after.authors[e.author]]
    && e.author in dAfter.profiles && dAfter.profiles == d.profiles[e.author := dAfter.profiles[e.author]]
  }

  lemma AllMirror(digest: Token -> string, db: Db, after: Db, d: Directory, dAfter: Directory, e: Event)
    requires AuthorsMirror(db, d) && db.audit == d.log && Abreast(db, after, d, dAfter, e) && Extends(d, dAfter)
    requires KeysMirror(after, dAfter) && TokensMirror(digest, after, dAfter) && AuthorMirrors(after, dAfter, e.author)
    ensures Mirrors(digest, after, dAfter)
  {
    forall a | a in after.authors
      ensures AuthorMirrors(after, dAfter, a)
    {
      if a != e.author {
        assert AuthorMirrors(db, d, a);
        OtherMirrors(db, after, d, dAfter, e, a);
      }
    }
  }

  function RegistrationOf(digest: Token -> string, op: Operation): Registration
    requires op.Register?
  {
    Registration(op.id, op.subject, op.handle, op.publicKey, op.fingerprint, op.credential, op.token.lookup,
                 digest(op.token), op.expires)
  }

  function AfterRegistration(db: Db, r: Registration, q: Request): Db {
    Db(db.authors[r.id := Author(r.subject, r.handle, r.publicKey, Active, 1)],
       db.keys[r.fingerprint := Key(r.id, r.publicKey, Active, None)],
       db.credentials[r.credential := Credential(r.id, r.lookup, r.hash, r.expires, Active, None)],
       db.audit + [RegistrationEvent(r, q)])
  }

  lemma RegistrationLeaves(db: Db, r: Registration, q: Request)
    requires Owned(WithRegistration(db, r), RegistrationEvent(r, q))
    ensures After(WithRegistration(db, r), RegistrationEvent(r, q)) == AfterRegistration(db, r, q)
  {
  }

  lemma RegistrationMoves(digest: Token -> string, db: Db, d: Directory, op: Operation)
    requires Mirrors(digest, db, d) && op.Register? && op.id !in db.authors
    requires op.fingerprint !in db.keys && op.credential !in db.credentials && Replay(db.audit, op.id).None?
    ensures var r := RegistrationOf(digest, op);
            var after, e := AfterRegistration(db, r, op.q), RegistrationEvent(r, op.q);
            && Abreast(db, after, d, Applied(d, op), e) && KeysMirror(after, Applied(d, op))
            && TokensMirror(digest, after, Applied(d, op))
  {
  }

  lemma RegistrationAuthor(digest: Token -> string, db: Db, d: Directory, op: Operation)
    requires Mirrors(digest, db, d) && op.Register? && op.id !in db.authors
    requires op.fingerprint !in db.keys && op.credential !in db.credentials && Replay(db.audit, op.id).None?
    ensures var r := RegistrationOf(digest, op);
            AuthorMirrors(AfterRegistration(db, r, op.q), Applied(d, op), op.id)
  {
    var r := RegistrationOf(digest, op);
    ReplayAppended(db.audit, RegistrationEvent(r, op.q), op.id);
  }

  lemma RegistrationMirrors(digest: Token -> string, db: Db, d: Directory, op: Operation)
    requires Mirrors(digest, db, d) && op.Register? && op.id !in db.authors
    requires op.fingerprint !in db.keys && op.credential !in db.credentials && Replay(db.audit, op.id).None?
    ensures var r := RegistrationOf(digest, op);
            Mirrors(digest, AfterRegistration(db, r, op.q), Applied(d, op))
  {
    var r := RegistrationOf(digest, op);
    var after, e := AfterRegistration(db, r, op.q), RegistrationEvent(r, op.q);
    RegistrationMoves(digest, db, d, op);
    RegistrationAuthor(digest, db, d, op);
    AppliedExtends(d, op);
    AllMirror(digest, db, after, d, Applied(d, op), e);
  }

  function AfterKeyRotation(db: Db, op: Operation, prior: string): Db
    requires op.ReplaceKey? && op.author in db.authors && prior in db.keys
  {
    var a := db.authors[op.author];
    Db(db.authors[op.author := a.(publicKey := op.publicKey, revision := a.revision + 1)],
       KeySet(db, prior, Revoked, op.q.at).keys[op.fingerprint := Key(op.author, op.publicKey, Active, None)],
       db.credentials,
       db.audit + [KeyEvent(db, op.author, prior, op.fingerprint, op.q)])
  }

  lemma KeyRotationLeaves(db: Db, op: Operation, prior: string)
    requires op.ReplaceKey? && op.author in db.authors && prior in db.keys && op.fingerprint !in db.keys
    requires var p := WithKey(db, op.author, op.publicKey, op.fingerprint);
             var e := KeyEvent(db, op.author, prior, op.fingerprint, op.q); Owned(p, e) && MetadataValid(e)
    ensures After(WithKey(db, op.author, op.publicKey, op.fingerprint),
                KeyEvent(db, op.author, prior, op.fingerprint, op.q)) == AfterKeyRotation(db, op, prior)
  {
  }

  lemma KeyRotationMoves(digest: Token -> string, db: Db, d: Directory, op: Operation)
    requires Mirrors(digest, db, d) && op.ReplaceKey? && op.author in db.authors && op.fingerprint !in db.keys
    requires AuthorMirrors(db, d, op.author) && d.profiles[op.author].active
    ensures var f := d.profiles[op.author].fingerprint;
            var after, e := AfterKeyRotation(db, op, f), KeyEvent(db, op.author, f, op.fingerprint, op.q);
            && Abreast(db, after, d, Applied(d, op), e) && KeysMirror(after, Applied(d, op))
            && TokensMirror(digest, after, Applied(d, op))
  {
  }

  lemma KeyRotationAuthor(digest: Token -> string, db: Db, d: Directory, op: Operation)
    requires Mirrors(digest, db, d) && op.ReplaceKey? && op.author in db.authors && op.fingerprint !in db.keys
    requires AuthorMirrors(db, d, op.author) && d.profiles[op.author].active
    ensures var f := d.profiles[op.author].fingerprint;
            AuthorMirrors(AfterKeyRotation(db, op, f), Applied(d, op), op.author)
  {
    var f := d.profiles[op.author].fingerprint;
    ReplayAppended(db.audit, KeyEvent(db, op.author, f, op.fingerprint, op.q), op.author);
  }

  lemma KeyRotationMirrors(digest: Token -> string, db: Db, d: Directory, op: Operation)
    requires Mirrors(digest, db, d) && op.ReplaceKey? && op.author in db.authors && op.fingerprint !in db.keys
    requires AuthorMirrors(db, d, op.author) && d.profiles[op.author].active
    ensures var f := d.profiles[op.author].fingerprint;
            Mirrors(digest, AfterKeyRotation(db, op, f), Applied(d, op))
  {
    var f := d.profiles[op.author].fingerprint;
    var after, e := AfterKeyRotation(db, op, f), KeyEvent(db, op.author, f, op.fingerprint, op.q);
    KeyRotationMoves(digest, db, d, op);
    KeyRotationAuthor(digest, db, d, op);
    AppliedExtends(d, op);
    AllMirror(digest, db, after, d, Applied(d, op), e);
  }

  function AfterCredentialRotation(digest: Token -> string, db: Db, op: Operation, prior: string): Db
    requires op.ReplaceCredential? && op.author in db.authors && prior in db.credentials
  {
    var a := db.authors[op.author];
    Db(db.authors[op.author := a.(revision := a.revision + 1)],
       db.keys,
       CredentialSet(db, prior, Revoked, op.q.at).credentials[op.credential :=
         Credential(op.author, op.token.lookup, digest(op.token), op.expires, Active, None)],
       db.audit + [CredentialEvent(db, op.author, prior, op.credential, op.q)])
  }

  function IssueOf(digest: Token -> string, op: Operation): Issue
    requires op.ReplaceCredential?
  {
    Issue(op.credential, op.token.lookup, digest(op.token), op.expires)
  }

  lemma CredentialRotationLeaves(digest: Token -> string, db: Db, op: Operation, prior: string)
    requires op.ReplaceCredential? && op.author in db.authors && prior in db.credentials
    requires op.credential !in db.credentials
    requires var p := WithCredential(db, op.author, IssueOf(digest, op));
             var e := CredentialEvent(db, op.author, prior, op.credential, op.q); Owned(p, e) && MetadataValid(e)
    ensures After(WithCredential(db, op.author, IssueOf(digest, op)),
                CredentialEvent(db, op.author, prior, op.credential, op.q)) ==
              AfterCredentialRotation(digest, db, op, prior)
  {
  }

  lemma CredentialRotationMoves(digest: Token -> string, db: Db, d: Directory, op: Operation)
    requires Mirrors(digest, db, d) && op.ReplaceCredential? && op.author in db.authors &&
               op.credential !in db.credentials
    requires AuthorMirrors(db, d, op.author) && d.profiles[op.author].active
    ensures var c := d.profiles[op.author].credential;
            var after, e := AfterCredentialRotation(digest, db, op, c),
                CredentialEvent(db, op.author, c, op.credential, op.q);
            && Abreast(db, after, d, Applied(d, op), e) && KeysMirror(after, Applied(d, op))
            && TokensMirror(digest, after, Applied(d, op))
  {
  }

  lemma CredentialRotationAuthor(digest: Token -> string, db: Db, d: Directory, op: Operation)
    requires Mirrors(digest, db, d) && op.ReplaceCredential? && op.author in db.authors &&
               op.credential !in db.credentials
    requires AuthorMirrors(db, d, op.author) && d.profiles[op.author].active
    ensures var c := d.profiles[op.author].credential;
            AuthorMirrors(AfterCredentialRotation(digest, db, op, c), Applied(d, op), op.author)
  {
    var c := d.profiles[op.author].credential;
    ReplayAppended(db.audit, CredentialEvent(db, op.author, c, op.credential, op.q), op.author);
  }

  lemma CredentialRotationMirrors(digest: Token -> string, db: Db, d: Directory, op: Operation)
    requires Mirrors(digest, db, d) && op.ReplaceCredential? && op.author in db.authors &&
               op.credential !in db.credentials
    requires AuthorMirrors(db, d, op.author) && d.profiles[op.author].active
    ensures var c := d.profiles[op.author].credential;
            Mirrors(digest, AfterCredentialRotation(digest, db, op, c), Applied(d, op))
  {
    var c := d.profiles[op.author].credential;
    var after, e := AfterCredentialRotation(digest, db, op, c), CredentialEvent(db, op.author, c, op.credential, op.q);
    CredentialRotationMoves(digest, db, d, op);
    CredentialRotationAuthor(digest, db, d, op);
    AppliedExtends(d, op);
    AllMirror(digest, db, after, d, Applied(d, op), e);
  }

  function AfterRevocation(db: Db, op: Operation, key: string, credential: string): Db
    requires op.Revoke? && op.author in db.authors && key in db.keys && credential in db.credentials
  {
    var a := db.authors[op.author];
    Db(db.authors[op.author := a.(standing := Revoked, revision := a.revision + 1)],
       KeySet(db, key, Revoked, op.q.at).keys,
       CredentialSet(db, credential, Revoked, op.q.at).credentials,
       db.audit + [RevocationEvent(db, op.author, key, Some(credential), op.q)])
  }

  lemma RevocationLeaves(db: Db, op: Operation, key: string, credential: string)
    requires op.Revoke? && op.author in db.authors && key in db.keys && credential in db.credentials
    requires Owned(db, RevocationEvent(db, op.author, key, Some(credential), op.q))
    ensures After(db, RevocationEvent(db, op.author, key, Some(credential), op.q)) ==
              AfterRevocation(db, op, key, credential)
  {
  }

  lemma RevocationMoves(digest: Token -> string, db: Db, d: Directory, op: Operation)
    requires Mirrors(digest, db, d) && op.Revoke? && op.author in db.authors
    requires AuthorMirrors(db, d, op.author) && d.profiles[op.author].active
    ensures var p := d.profiles[op.author];
            var after, e := AfterRevocation(db, op, p.fingerprint, p.credential),
                RevocationEvent(db, op.author, p.fingerprint, Some(p.credential), op.q);
            && Abreast(db, after, d, Applied(d, op), e) && KeysMirror(after, Applied(d, op))
            && TokensMirror(digest, after, Applied(d, op))
  {
  }

  lemma RevocationAuthor(digest: Token -> string, db: Db, d: Directory, op: Operation)
    requires Mirrors(digest, db, d) && op.Revoke? && op.author in db.authors
    requires AuthorMirrors(db, d, op.author) && d.profiles[op.author].active
    ensures var p := d.profiles[op.author];
            AuthorMirrors(AfterRevocation(db, op, p.fingerprint, p.credential), Applied(d, op), op.author)
  {
    var p := d.profiles[op.author];
    ReplayAppended(db.audit, RevocationEvent(db, op.author, p.fingerprint, Some(p.credential), op.q), op.author);
  }

  lemma RevocationMirrors(digest: Token -> string, db: Db, d: Directory, op: Operation)
    requires Mirrors(digest, db, d) && op.Revoke? && op.author in db.authors
    requires AuthorMirrors(db, d, op.author) && d.profiles[op.author].active
    ensures var p := d.profiles[op.author];
            Mirrors(digest, AfterRevocation(db, op, p.fingerprint, p.credential), Applied(d, op))
  {
    var p := d.profiles[op.author];
    var after, e := AfterRevocation(db, op, p.fingerprint, p.credential),
        RevocationEvent(db, op.author, p.fingerprint, Some(p.credential), op.q);
    RevocationMoves(digest, db, d, op);
    RevocationAuthor(digest, db, d, op);
    AppliedExtends(d, op);
    AllMirror(digest, db, after, d, Applied(d, op), e);
  }

  // ---------- whole operations ----------

  /** Whether the tables are ready for the audit row, or the operation ends before it, is told by the directory. */
  ghost predicate Foretold(digest: Token -> string, db: Db, d: Directory, op: Operation) {
    match Refusal(digest, d, op)
    case None => Prepared(digest, db, op).Some? && ActorKeyUnused(db.audit, op.q.actor, op.q.idempotencyKey)
    case Some(e) =>
      if e == KeyReused
      then Prepared(digest, db, op).Some? && !ActorKeyUnused(db.audit, op.q.actor, op.q.idempotencyKey)
      else Prepared(digest, db, op).None? && Attempt(digest, db, op) == Err(e)
  }

  lemma RegistrationForetold(digest: Token -> string, db: Db, d: Directory, op: Operation)
    requires Mirrors(digest, db, d) && op.Register?
    ensures Foretold(digest, db, d, op)
  {
    SpentAlike(db, d, op.q);
    KeyTakenAlike(db, d, op.publicKey, op.fingerprint);
    TokenTakenAlike(digest, db, d, op.credential, op.token);
    if !KeyTaken(d, op.publicKey, op.fingerprint) {
      NameTakenAlike(db, d, RegistrationOf(digest, op));
    }
  }

  /** The author's profile, and the active rows that the tables find for it. */
  ghost predicate ProfileFound(db: Db, d: Directory, a: string) {
    && (a in db.authors <==> a in d.profiles)
    && (a in d.profiles ==>
          && AuthorMirrors(db, d, a)
          && (d.profiles[a].active ==> ActiveKey(db, a) == Some(d.profiles[a].fingerprint))
          && (d.profiles[a].active ==> ActiveCredential(db, a) == Some(d.profiles[a].credential)))
  }

  lemma ProfileIsFound(digest: Token -> string, db: Db, d: Directory, a: string)
    requires Settled(db) && Mirrors(digest, db, d)
    ensures ProfileFound(db, d, a)
  {
    if a in d.profiles {
      CurrentAlike(digest, db, d, a);
    }
  }

  lemma ChangeForetold(digest: Token -> string, db: Db, d: Directory, op: Operation)
    requires KeysMirror(db, d) && TokensMirror(digest, db, d) && db.audit == d.log
    requires !op.Register? && ProfileFound(db, d, op.author)
    ensures Foretold(digest, db, d, op)
  {
    SpentAlike(db, d, op.q);
    if op.ReplaceKey? {
      KeyTakenAlike(db, d, op.publicKey, op.fingerprint);
    } else if op.ReplaceCredential? {
      TokenTakenAlike(digest, db, d, op.credential, op.token);
    }
  }

  /** What an operation that has reached its audit row comes to. */
  ghost predicate ComesTo(digest: Token -> string, db: Db, op: Operation, after: Db) {
    Attempt(digest, db, op) ==
      if ActorKeyUnused(db.audit, op.q.actor, op.q.idempotencyKey) then Ok(after) else Err(KeyReused)
  }

  lemma RegistrationComes(digest: Token -> string, db: Db, op: Operation)
    requires Settled(db) && op.Register? && Prepared(digest, db, op).Some?
    ensures ComesTo(digest, db, op, AfterRegistration(db, RegistrationOf(digest, op), op.q))
    ensures op.id !in db.authors && op.fingerprint !in db.keys && op.credential !in db.credentials
    ensures Replay(db.audit, op.id).None?
  {
    var r := RegistrationOf(digest, op);
    assert Prepared(digest, db, op).value == (WithRegistration(db, r), RegistrationEvent(r, op.q));
    PreparedCompletes(digest, db, op);
    RegistrationLeaves(db, r, op.q);
    assert Unheard(db.audit, op.id);
  }

  lemma KeyRotationComes(digest: Token -> string, db: Db, op: Operation, f: string)
    requires Settled(db) && op.ReplaceKey? && Prepared(digest, db, op).Some? && ActiveKey(db, op.author) == Some(f)
    ensures op.author in db.authors && f in db.keys && op.fingerprint !in db.keys
    ensures ComesTo(digest, db, op, AfterKeyRotation(db, op, f))
  {
    assert Prepared(digest, db, op).value ==
           (WithKey(db, op.author, op.publicKey, op.fingerprint), KeyEvent(db, op.author, f, op.fingerprint, op.q));
    PreparedCompletes(digest, db, op);
    KeyRotationLeaves(db, op, f);
  }

  lemma CredentialRotationComes(digest: Token -> string, db: Db, op: Operation, c: string)
    requires Settled(db) && op.ReplaceCredential? && Prepared(digest, db, op).Some?
    requires ActiveCredential(db, op.author) == Some(c)
    ensures op.author in db.authors && c in db.credentials && op.credential !in db.credentials
    ensures ComesTo(digest, db, op, AfterCredentialRotation(digest, db, op, c))
  {
    assert Prepared(digest, db, op).value ==
           (WithCredential(db, op.author, IssueOf(digest, op)), CredentialEvent(db, op.author, c, op.credential, op.q));
    PreparedCompletes(digest, db, op);
    CredentialRotationLeaves(digest, db, op, c);
  }

  lemma RevocationComes(digest: Token -> string, db: Db, op: Operation, f: string, c: string)
    requires Settled(db) && op.Revoke? && Prepared(digest, db, op).Some?
    requires ActiveKey(db, op.author) == Some(f) && ActiveCredential(db, op.author) == Some(c)
    ensures op.author in db.authors && f in db.keys && c in db.credentials
    ensures ComesTo(digest, db, op, AfterRevocation(db, op, f, c))
  {
    assert Prepared(digest, db, op).value == (db, RevocationEvent(db, op.author, f, Some(c), op.q));
    PreparedCompletes(digest, db, op);
    RevocationLeaves(db, op, f, c);
  }

  lemma RegistrationFollows(digest: Token -> string, db: Db, d: Directory, op: Operation)
    requires Settled(db) && Mirrors(digest, db, d) && op.Register?
    ensures Follows(digest, db, d, op)
  {
    RegistrationForetold(digest, db, d, op);
    if Prepared(digest, db, op).Some? {
      RegistrationComes(digest, db, op);
      RegistrationMirrors(digest, db, d, op);
    }
  }

  /** An operation on an author's own rows, once its audit row is ready. */
  ghost predicate Arrives(digest: Token -> string, db: Db, d: Directory, op: Operation)
    requires op.Register? || op.author in d.profiles
  {
    exists after :: ComesTo(digest, db, op, after) && Mirrors(digest, after, Applied(d, op))
  }

  lemma KeyRotationArrives(digest: Token -> string, db: Db, d: Directory, op: Operation)
    requires Settled(db) && Mirrors(digest, db, d) && op.ReplaceKey? && Prepared(digest, db, op).Some?
    requires op.author in d.profiles && d.profiles[op.author].active && ProfileFound(db, d, op.author)
    ensures Arrives(digest, db, d, op)
  {
    KeyRotationComes(digest, db, op, d.profiles[op.author].fingerprint);
    KeyRotationMirrors(digest, db, d, op);
  }

  lemma CredentialRotationArrives(digest: Token -> string, db: Db, d: Directory, op: Operation)
    requires Settled(db) && Mirrors(digest, db, d) && op.ReplaceCredential? && Prepared(digest, db, op).Some?
    requires op.author in d.profiles && d.profiles[op.author].active && ProfileFound(db, d, op.author)
    ensures Arrives(digest, db, d, op)
  {
    CredentialRotationComes(digest, db, op, d.profiles[op.author].credential);
    CredentialRotationMirrors(digest, db, d, op);
  }

  lemma RevocationArrives(digest: Token -> string, db: Db, d: Directory, op: Operation)
    requires Settled(db) && Mirrors(digest, db, d) && op.Revoke? && Prepared(digest, db, op).Some?
    requires op.author in d.profiles && d.profiles[op.author].active && ProfileFound(db, d, op.author)
    ensures Arrives(digest, db, d, op)
  {
    RevocationComes(digest, db, op, d.profiles[op.author].fingerprint, d.profiles[op.author].credential);
    RevocationMirrors(digest, db, d, op);
  }

  lemma ArrivedFollows(digest: Token -> string, db: Db, d: Directory, op: Operation)
    requires Foretold(digest, db, d, op) && (op.Register? || op.author in d.profiles)
    requires Prepared(digest, db, op).Some? ==> Arrives(digest, db, d, op)
    ensures Follows(digest, db, d, op)
  {
  }

  lemma ChangeArrives(digest: Token -> string, db: Db, d: Directory, op: Operation)
    requires Settled(db) && Mirrors(digest, db, d) && !op.Register? && Prepared(digest, db, op).Some?
    requires op.author in d.profiles && d.profiles[op.author].active && ProfileFound(db, d, op.author)
    ensures Arrives(digest, db, d, op)
  {
    match op
    case ReplaceKey(author, publicKey, fingerprint, expected, q) => KeyRotationArrives(digest, db, d, op);
    case ReplaceCredential(author, credential, token, expires, expected, q) =>
      CredentialRotationArrives(digest, db, d, op);
    case Revoke(author, q) => RevocationArrives(digest, db, d, op);
  }

  lemma ForetoldIsKnown(digest: Token -> string, db: Db, d: Directory, op: Operation)
    requires Foretold(digest, db, d, op) && Prepared(digest, db, op).Some? && !op.Register?
    ensures op.author in d.profiles && d.profiles[op.author].active
  {
  }

  lemma ChangeFollows(digest: Token -> string, db: Db, d: Directory, op: Operation)
    requires Settled(db) && Mirrors(digest, db, d) && !op.Register? && Foretold(digest, db, d, op)
    requires ProfileFound(db, d, op.author)
    ensures Follows(digest, db, d, op)
  {
    if Prepared(digest, db, op).Some? {
      ForetoldIsKnown(digest, db, d, op);
      ChangeArrives(digest, db, d, op);
      ArrivedFollows(digest, db, d, op);
    }
  }

  lemma OperationFollows(digest: Token -> string, db: Db, d: Directory, op: Operation)
    requires Settled(db) && Mirrors(digest, db, d)
    ensures Follows(digest, db, d, op)
  {
    if op.Register? {
      RegistrationFollows(digest, db, d, op);
    } else {
      ProfileIsFound(digest, db, d, op.author);
      ChangeForetold(digest, db, d, op);
      ChangeFollows(digest, db, d, op);
    }
  }

  // ---------- whole runs ----------

  /** The tables of any run are those of the directory of the same operations, and the next operation is refused exactly
      as the directory says, with that error, or commits. */
  lemma {:induction false} TablesFollowDirectory(digest: Token -> string, ops: seq<Operation>, op: Operation)
    ensures Mirrors(digest, Run(digest, START, ops).db, Directed(digest, ops))
    ensures Follows(digest, Run(digest, START, ops).db, Directed(digest, ops), op)
    decreases |ops|
  {
    if ops != [] {
      TablesFollowDirectory(digest, ops[..|ops| - 1], ops[|ops| - 1]);
    }
    RunSettled(digest, ops);
    OperationFollows(digest, Run(digest, START, ops).db, Directed(digest, ops), op);
  }

  /** How an operation ends after the given ones, by the directory. */
  function Verdict(digest: Token -> string, ops: seq<Operation>, op: Operation): Result<(), IdentityError> {
    var refusal := Refusal(digest, Directed(digest, ops), op);
    if refusal.Some? then Err(refusal.value) else Ok(())
  }

  lemma AttemptsEndAsForetold(digest: Token -> string, ops: seq<Operation>, op: Operation)
    ensures match Attempt(digest, Run(digest, START, ops).db, op)
            case Ok(_) => Verdict(digest, ops, op) == Ok(())
            case Err(e) => Verdict(digest, ops, op) == Err(e)
  {
    TablesFollowDirectory(digest, ops, op);
    assert Follows(digest, Run(digest, START, ops).db, Directed(digest, ops), op);
  }

  // ---------- authors are as they registered ----------

  /** Operation `i` of a run is a committed registration of the author. */
  ghost predicate RegisteredBy(digest: Token -> string, ops: seq<Operation>, i: int, a: string) {
    && 0 <= i < |ops| && ops[i].Register? && ops[i].id == a
    && Attempt(digest, Run(digest, START, ops[..i]).db, ops[i]).Ok?
  }

  /** One committed registration, and a profile that carries its subject and handle; or neither. */
  ghost predicate AsRegistered(digest: Token -> string, ops: seq<Operation>, a: string) {
    var d := Directed(digest, ops);
    && (a in d.profiles <==> exists i :: RegisteredBy(digest, ops, i, a))
    && (forall i, j :: RegisteredBy(digest, ops, i, a) && RegisteredBy(digest, ops, j, a) ==> i == j)
    && (forall i :: RegisteredBy(digest, ops, i, a) ==>
          && a in d.profiles && d.profiles[a].subject == ops[i].subject && d.profiles[a].handle == ops[i].handle)
  }

  predicate Registers(digest: Token -> string, d: Directory, op: Operation, a: string) {
    op.Register? && op.id == a && Refusal(digest, d, op).None?
  }

  ghost predicate EarlierOrLast(digest: Token -> string, ops: seq<Operation>, i: int, a: string)
    requires ops != []
  {
    var n := |ops| - 1;
    RegisteredBy(digest, ops[..n], i, a) || (i == n && Registers(digest, Directed(digest, ops[..n]), ops[n], a))
  }

  lemma EarlierRegistered(digest: Token -> string, ops: seq<Operation>, i: int, a: string)
    requires ops != []
    ensures RegisteredBy(digest, ops, i, a) <==> EarlierOrLast(digest, ops, i, a)
  {
    TablesFollowDirectory(digest, ops[..|ops| - 1], ops[|ops| - 1]);
    if 0 <= i < |ops| - 1 {
      assert ops[..|ops| - 1][..i] == ops[..i];
    }
  }

  lemma TriedKeepsNames(digest: Token -> string, d: Directory, op: Operation, a: string)
    ensures var after := Tried(digest, d, op);
            && (a in after.profiles <==> a in d.profiles || Registers(digest, d, op, a))
            && (Registers(digest, d, op, a) ==> a !in d.profiles)
            && (a in d.profiles ==>
                  after.profiles[a].subject == d.profiles[a].subject &&
                      after.profiles[a].handle == d.profiles[a].handle)
            && (Registers(digest, d, op, a) ==>
                  after.profiles[a].subject == op.subject && after.profiles[a].handle == op.handle)
  {
  }

  lemma {:induction false} ProfilesAreAsRegistered(digest: Token -> string, ops: seq<Operation>, a: string)
    ensures AsRegistered(digest, ops, a)
  {
    if ops != [] {
      var before, op := ops[..|ops| - 1], ops[|ops| - 1];
      ProfilesAreAsRegistered(digest, before, a);
      TriedKeepsNames(digest, Directed(digest, before), op, a);
      forall i
        ensures RegisteredBy(digest, ops, i, a) <==> EarlierOrLast(digest, ops, i, a)
      {
        EarlierRegistered(digest, ops, i, a);
      }
      if Registers(digest, Directed(digest, before), op, a) {
        assert RegisteredBy(digest, ops, |before|, a);
      } else if i :| RegisteredBy(digest, before, i, a) {
        assert RegisteredBy(digest, ops, i, a);
      }
    }
  }

  /** In every state of a run, an author row is there exactly for a committed registration; there is only one, and
      the row still has its subject and handle. */
  lemma {:induction false} AuthorsAreAsRegistered(digest: Token -> string, ops: seq<Operation>, a: string)
    ensures var authors := Run(digest, START, ops).db.authors;
            && (a in authors <==> exists i :: RegisteredBy(digest, ops, i, a))
            && (forall i, j :: RegisteredBy(digest, ops, i, a) && RegisteredBy(digest, ops, j, a) ==> i == j)
            && (forall i :: RegisteredBy(digest, ops, i, a) ==>
                  authors[a].subject == ops[i].subject && authors[a].handle == ops[i].handle)
  {
    ProfilesAreAsRegistered(digest, ops, a);
    TablesFollowDirectory(digest, ops, Revoke(a, Request("", "", 0.0)));
    if a in Directed(digest, ops).profiles {
      assert AuthorMirrors(Run(digest, START, ops).db, Directed(digest, ops), a);
    }
  }

  // ---------- whom a token authenticates ----------

  /** The token is the author's latest, has not expired, and the author has not been revoked. */
  predicate Holds(d: Directory, a: string, t: Token, now: Time)
    requires a in d.profiles
  {
    var p := d.profiles[a];
    p.active && p.credential in d.tokens && d.tokens[p.credential].token == t && now < d.tokens[p.credential].expires
  }

  /** An answer names the one holder of the token, with the profile's subject, handle, public key and credential. */
  ghost predicate Answers(d: Directory, t: Token, now: Time, r: Option<Authenticated>) {
    match r
    case Some(x) =>
      && x.author in d.profiles && Holds(d, x.author, t, now) && d.profiles[x.author].fingerprint in d.keys
      && var p := d.profiles[x.author];
         x.subject == p.subject && x.handle == p.handle && x.publicKey == d.keys[p.fingerprint].publicKey &&
         x.credential == p.credential
    case None => forall a | a in d.profiles :: !Holds(d, a, t, now)
  }

  lemma HolderIsFound(digest: Token -> string, db: Db, d: Directory, t: Token, now: Time, a: string)
    requires RowsOk(db) && CredentialsUnique(db) && TokensMirror(digest, db, d)
    requires a in db.authors && a in d.profiles && AuthorMirrors(db, d, a) && Holds(d, a, t, now)
    ensures Authenticate(digest, db, t, now).Some?
  {
    assert AuthorOk(db, a, db.authors[a]);
    var c := d.profiles[a].credential;
    assert db.credentials[c] == CredentialRow(digest, d.tokens[c]);
    assert CredentialOk(db, c, db.credentials[c]);
    assert Found(db, t.lookup) == Some(c);
  }

  lemma AnswerIsHolder(digest: Token -> string, db: Db, d: Directory, t: Token, now: Time)
    requires Injective(digest) && Settled(db) && Mirrors(digest, db, d) && Authenticate(digest, db, t, now).Some?
    ensures Answers(d, t, now, Authenticate(digest, db, t, now))
  {
    var x := Authenticate(digest, db, t, now).value;
    assert AuthorMirrors(db, d, x.author);
    assert db.credentials[x.credential] == CredentialRow(digest, d.tokens[x.credential]);
    assert CredentialOk(db, x.credential, db.credentials[x.credential]);
  }

  /** After any operations a token is answered as the directory says. */
  lemma {:induction false} AnswersFollowDirectory(digest: Token -> string, ops: seq<Operation>, t: Token, now: Time)
    requires Injective(digest)
    ensures Answers(Directed(digest, ops), t, now, Authenticate(digest, Run(digest, START, ops).db, t, now))
  {
    var db, d := Run(digest, START, ops).db, Directed(digest, ops);
    RunSettled(digest, ops);
    TablesFollowDirectory(digest, ops, Revoke("", Request("", "", 0.0)));
    if Authenticate(digest, db, t, now).Some? {
      AnswerIsHolder(digest, db, d, t, now);
    } else if a :| a in d.profiles && Holds(d, a, t, now) {
      assert AuthorMirrors(db, d, a);
      HolderIsFound(digest, db, d, t, now, a);
    }
  }

  /** The subject and handle of an answer are those of the author's one committed registration. */
  ghost predicate AnswersRegistered(digest: Token -> string, ops: seq<Operation>, r: Option<Authenticated>) {
    r.Some? ==>
      && (exists i :: RegisteredBy(digest, ops, i, r.value.author))
      && (forall i :: RegisteredBy(digest, ops, i, r.value.author) ==>
            r.value.subject == ops[i].subject && r.value.handle == ops[i].handle)
  }

  lemma {:induction false} AnswersAsRegistered(digest: Token -> string, ops: seq<Operation>, t: Token, now: Time)
    requires Injective(digest)
    ensures AnswersRegistered(digest, ops, Authenticate(digest, Run(digest, START, ops).db, t, now))
  {
    var r := Authenticate(digest, Run(digest, START, ops).db, t, now);
    AnswersFollowDirectory(digest, ops, t, now);
    if r.Some? {
      ProfilesAreAsRegistered(digest, ops, r.value.author);
    }
  }
}
