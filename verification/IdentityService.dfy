/** Whole runs of registrations, rotations and revocations, and who a bearer token authenticates. */
module IdentityService {
  import opened Wrappers
  import opened IdentityTables
  import opened IdentityLifecycle

  /** A bearer token: the part it is looked up by and the secret. */
  datatype Token = Token(lookup: string, secret: string)

  datatype Operation =
    | Register(id: string, subject: string, handle: string, publicKey: string, fingerprint: string,
               credential: string, token: Token, expires: Time, q: Request)
    | ReplaceKey(author: string, publicKey: string, fingerprint: string, expected: nat, q: Request)
    | ReplaceCredential(author: string, credential: string, token: Token, expires: Time, expected: nat, q: Request)
    | Revoke(author: string, q: Request)

  /** `issued` remembers which token, and which expiry, went out with each credential; no operation reads it. */
  datatype System = System(db: Db, issued: map<string, (Token, Time)>)

  const START: System := System(EMPTY, map[])

  ghost function Attempt(digest: Token -> string, db: Db, op: Operation): Result<Db, IdentityError> {
    match op
    case Register(id, subject, handle, publicKey, fingerprint, credential, token, expires, q) =>
      RegisterAuthor(db, Registration(id, subject, handle, publicKey, fingerprint, credential, token.lookup,
          digest(token), expires), q)
    case ReplaceKey(author, publicKey, fingerprint, expected, q) =>
        RotateKey(db, author, publicKey, fingerprint, expected, q)
    case ReplaceCredential(author, credential, token, expires, expected, q) =>
      RotateCredential(db, author, Issue(credential, token.lookup, digest(token), expires), expected, q)
    case Revoke(author, q) => RevokeAuthor(db, author, q)
  }

  function IssuedBy(issued: map<string, (Token, Time)>, op: Operation): map<string, (Token, Time)> {
    if op.Register? || op.ReplaceCredential? then issued[op.credential := (op.token, op.expires)] else issued
  }

  /** A failed operation changes nothing. */
  ghost function Next(digest: Token -> string, s: System, op: Operation): System {
    var r := Attempt(digest, s.db, op);
    if r.Err? then s
    else System(r.value, IssuedBy(s.issued, op))
  }

  ghost function Run(digest: Token -> string, s: System, ops: seq<Operation>): System {
    if ops == [] then s else Next(digest, Run(digest, s, ops[..|ops| - 1]), ops[|ops| - 1])
  }

  // ---------- each operation from settled tables to settled tables ----------

  lemma SettledAuthor(db: Db, a: string)
    requires Settled(db) && a in db.authors
    ensures var v := Replay(db.audit, a);
            && v.Some? && v.value.key in db.keys && db.keys[v.value.key].publicKey == db.authors[a].publicKey
            && db.keys[v.value.key].author == a
            && v.value.credential in db.credentials && db.credentials[v.value.credential].author == a
            && (db.authors[a].standing == Active ==>
                  ActiveKey(db, a) == Some(v.value.key) && ActiveCredential(db, a) == Some(v.value.credential))
  {
    assert AuthorOk(db, a, db.authors[a]);
    ActiveMeansCurrent(db, a);
    var v := Replay(db.audit, a).value;
    if db.authors[a].standing == Active {
      assert db.keys[v.key].standing == Active && db.credentials[v.credential].standing == Active;
    }
  }

  /** Tables with new, still pending rows beside the old ones. */
  ghost predicate Prepares(db: Db, d: Db) {
    && d.audit == db.audit
    && (forall a | a in db.authors :: a in d.authors && d.authors[a] == db.authors[a])
    && (forall f | f in db.keys :: f in d.keys && d.keys[f] == db.keys[f])
    && (forall c | c in db.credentials :: c in d.credentials && d.credentials[c] == db.credentials[c])
    && (forall a | a in d.authors && a !in db.authors :: d.authors[a].standing == Pending && d.authors[a].revision == 1)
    && (forall f | f in d.keys && f !in db.keys :: PendingKey(d, d.keys[f]))
    && (forall c | c in d.credentials && c !in db.credentials :: PendingCredential(d, d.credentials[c]))
  }

  predicate PendingKey(d: Db, k: Key) {
    k.standing == Pending && k.revokedAt.None? && k.author in d.authors
  }

  predicate PendingCredential(d: Db, c: Credential) {
    c.standing == Pending && c.revokedAt.None? && c.author in d.authors
  }

  lemma PreparedAuthorOk(db: Db, d: Db, a: string)
    requires Settled(db) && Prepares(db, d) && a in d.authors
    ensures AuthorOk(d, a, d.authors[a])
  {
    if a in db.authors {
      assert AuthorOk(db, a, db.authors[a]);
    }
  }

  lemma PreparedKeyOk(db: Db, d: Db, f: string)
    requires Settled(db) && Prepares(db, d) && f in d.keys
    ensures KeyOk(d, f, d.keys[f])
  {
    if f in db.keys {
      assert KeyOk(db, f, db.keys[f]);
    } else if d.keys[f].author in db.authors {
      SettledAuthor(db, d.keys[f].author);
    }
  }

  lemma PreparedCredentialOk(db: Db, d: Db, c: string)
    requires Settled(db) && Prepares(db, d) && c in d.credentials
    ensures CredentialOk(d, c, d.credentials[c])
  {
    if c in db.credentials {
      assert CredentialOk(db, c, db.credentials[c]);
    } else if d.credentials[c].author in db.authors {
      SettledAuthor(db, d.credentials[c].author);
    }
  }

  lemma PreparedRowsOk(db: Db, d: Db)
    requires Settled(db) && Prepares(db, d)
    ensures RowsOk(d) && AuditOk(d)
  {
    forall a | a in d.authors
      ensures AuthorOk(d, a, d.authors[a])
    {
      PreparedAuthorOk(db, d, a);
    }
    forall f | f in d.keys
      ensures KeyOk(d, f, d.keys[f])
    {
      PreparedKeyOk(db, d, f);
    }
    forall c | c in d.credentials
      ensures CredentialOk(d, c, d.credentials[c])
    {
      PreparedCredentialOk(db, d, c);
    }
    PreparedAuditOk(db, d);
  }

  lemma PreparedAuditOk(db: Db, d: Db)
    requires Settled(db) && Prepares(db, d)
    ensures AuditOk(d)
  {
  }

  /** Every public key of the author table is in the key table. */
  lemma AuthorKeysListed(db: Db, publicKey: string)
    requires Settled(db) && forall f | f in db.keys :: db.keys[f].publicKey != publicKey
    ensures forall a | a in db.authors :: db.authors[a].publicKey != publicKey
  {
    forall a | a in db.authors
      ensures db.authors[a].publicKey != publicKey
    {
      SettledAuthor(db, a);
    }
  }

  lemma RegistrationPrepares(db: Db, r: Registration)
    requires AuthorInsertable(db, r) && KeyInsertable(db, r.publicKey, r.fingerprint)
    requires CredentialInsertable(db, r.credential, r.lookup, r.hash)
    ensures Prepares(db, WithRegistration(db, r))
  {
  }

  lemma RegistrationUnique(db: Db, r: Registration)
    requires UniqueOk(db) && AuthorInsertable(db, r) && KeyInsertable(db, r.publicKey, r.fingerprint)
    requires CredentialInsertable(db, r.credential, r.lookup, r.hash)
    ensures UniqueOk(WithRegistration(db, r))
  {
  }

  function WithKey(db: Db, author: string, publicKey: string, fingerprint: string): Db {
    db.(keys := db.keys[fingerprint := Key(author, publicKey, Pending, None)])
  }

  lemma KeyPrepares(db: Db, author: string, publicKey: string, fingerprint: string)
    requires author in db.authors && KeyInsertable(db, publicKey, fingerprint)
    ensures Prepares(db, WithKey(db, author, publicKey, fingerprint))
  {
  }

  lemma KeyUnique(db: Db, author: string, publicKey: string, fingerprint: string)
    requires UniqueOk(db) && KeyInsertable(db, publicKey, fingerprint) && forall a | a in db.authors ::
               db.authors[a].publicKey != publicKey
    ensures UniqueOk(WithKey(db, author, publicKey, fingerprint))
  {
  }

  function WithCredential(db: Db, author: string, i: Issue): Db {
    db.(credentials := db.credentials[i.id := Credential(author, i.lookup, i.hash, i.expires, Pending, None)])
  }

  lemma CredentialPrepares(db: Db, author: string, i: Issue)
    requires author in db.authors && CredentialInsertable(db, i.id, i.lookup, i.hash)
    ensures Prepares(db, WithCredential(db, author, i))
  {
  }

  lemma CredentialUnique(db: Db, author: string, i: Issue)
    requires UniqueOk(db) && CredentialInsertable(db, i.id, i.lookup, i.hash)
    ensures UniqueOk(WithCredential(db, author, i))
  {
  }

  /** The tables an operation inserts its audit row into, and that row, when the operation gets that far. */
  ghost function Prepared(digest: Token -> string, db: Db, op: Operation): Option<(Db, Event)> {
    match op
    case Register(id, subject, handle, publicKey, fingerprint, credential, token, expires, q) =>
      var r := Registration(id, subject, handle, publicKey, fingerprint, credential, token.lookup, digest(token),
          expires);
      if AuthorInsertable(db, r) && KeyInsertable(db, publicKey, fingerprint) &&
          CredentialInsertable(db, credential, token.lookup, digest(token))
      then Some((WithRegistration(db, r), RegistrationEvent(r, q))) else None
    case ReplaceKey(author, publicKey, fingerprint, expected, q) =>
      if author in db.authors && db.authors[author].standing == Active && db.authors[author].revision == expected &&
         ActiveKey(db, author).Some? && KeyInsertable(db, publicKey, fingerprint)
      then Some((WithKey(db, author, publicKey, fingerprint),
                 KeyEvent(db, author, ActiveKey(db, author).value, fingerprint, q)))
      else None
    case ReplaceCredential(author, credential, token, expires, expected, q) =>
      if author in db.authors && db.authors[author].standing == Active && db.authors[author].revision == expected &&
         ActiveCredential(db, author).Some? && CredentialInsertable(db, credential, token.lookup, digest(token))
      then Some((WithCredential(db, author, Issue(credential, token.lookup, digest(token), expires)),
                 CredentialEvent(db, author, ActiveCredential(db, author).value, credential, q)))
      else None
    case Revoke(author, q) =>
      if author in db.authors && db.authors[author].standing == Active && ActiveKey(db, author).Some?
      then Some((db, RevocationEvent(db, author, ActiveKey(db, author).value, ActiveCredential(db, author), q)))
          else None
  }

  lemma PreparedInserts(digest: Token -> string, db: Db, op: Operation)
    requires forall a | a in db.authors && ActiveKey(db, a).Some? :: ActiveKey(db, a).value in db.keys
    ensures match Prepared(digest, db, op)
            case Some(p) => Attempt(digest, db, op) == InsertEvent(p.0, p.1)
            case None => Attempt(digest, db, op).Err? && Attempt(digest, db, op).error != CascadeAborted
  {
  }

  lemma PreparedPrepares(digest: Token -> string, db: Db, op: Operation)
    requires Prepared(digest, db, op).Some?
    ensures Prepares(db, Prepared(digest, db, op).value.0)
  {
    match op
    case Register(id, subject, handle, publicKey, fingerprint, credential, token, expires, q) =>
      var r := Registration(id, subject, handle, publicKey, fingerprint, credential, token.lookup, digest(token),
          expires);
      RegistrationPrepares(db, r);
    case ReplaceKey(author, publicKey, fingerprint, expected, q) =>
      KeyPrepares(db, author, publicKey, fingerprint);
    case ReplaceCredential(author, credential, token, expires, expected, q) =>
      CredentialPrepares(db, author, Issue(credential, token.lookup, digest(token), expires));
    case Revoke(author, q) =>
  }

  lemma PreparedUnique(digest: Token -> string, db: Db, op: Operation)
    requires Prepared(digest, db, op).Some? && Settled(db)
    ensures UniqueOk(Prepared(digest, db, op).value.0)
  {
    match op
    case Register(id, subject, handle, publicKey, fingerprint, credential, token, expires, q) =>
      var r := Registration(id, subject, handle, publicKey, fingerprint, credential, token.lookup, digest(token),
          expires);
      RegistrationUnique(db, r);
      assert Prepared(digest, db, op).value.0 == WithRegistration(db, r);
    case ReplaceKey(author, publicKey, fingerprint, expected, q) =>
      AuthorKeysListed(db, publicKey);
      KeyUnique(db, author, publicKey, fingerprint);
      assert Prepared(digest, db, op).value.0 == WithKey(db, author, publicKey, fingerprint);
    case ReplaceCredential(author, credential, token, expires, expected, q) =>
      CredentialUnique(db, author, Issue(credential, token.lookup, digest(token), expires));
      assert Prepared(digest, db, op).value.0 ==
             WithCredential(db, author, Issue(credential, token.lookup, digest(token), expires));
    case Revoke(author, q) =>
  }

  lemma PreparedConsistent(digest: Token -> string, db: Db, op: Operation)
    requires Settled(db) && Prepared(digest, db, op).Some?
    ensures Prepares(db, Prepared(digest, db, op).value.0) && Consistent(Prepared(digest, db, op).value.0)
  {
    PreparedPrepares(digest, db, op);
    PreparedUnique(digest, db, op);
    PreparedRowsOk(db, Prepared(digest, db, op).value.0);
  }

  /** The new rows are exactly those the event will activate. */
  ghost predicate Covers(db: Db, d: Db, e: Event) {
    && (forall a | a in d.authors && a !in db.authors :: a == e.author)
    && (forall f | f in d.keys && f !in db.keys :: e.newKey == Some(f))
    && (forall c | c in d.credentials && c !in db.credentials :: e.newCredential == Some(c))
  }

  lemma PreparedCovers(digest: Token -> string, db: Db, op: Operation)
    requires Prepared(digest, db, op).Some?
    ensures var (d, e) := Prepared(digest, db, op).value;
            Covers(db, d, e) && e.actor == op.q.actor && e.idempotencyKey == op.q.idempotencyKey && d.audit == db.audit
  {
  }

  /** The row continues the author's audit: its number is the next one. */
  ghost predicate NumberedNext(db: Db, e: Event) {
    if e.kind == Registered then e.author !in db.authors && e.number == 1
    else e.author in db.authors && e.number == db.authors[e.author].revision + 1
  }

  lemma NextNumberUnused(db: Db, e: Event)
    requires AuditOk(db) && NumberedNext(db, e)
    ensures NumberUnused(db.audit, e.author, e.number)
  {
  }

  lemma PreparedNumbered(digest: Token -> string, db: Db, op: Operation)
    requires Prepared(digest, db, op).Some?
    ensures NumberedNext(db, Prepared(digest, db, op).value.1)
  {
  }

  /** The active rows that an operation replaces are its author's. */
  ghost predicate ActiveFound(db: Db, author: string) {
    && author in db.authors && db.authors[author].standing == Active
    && KeyIs(db, author, ActiveKey(db, author), Active) &&
          HasCredential(db, author, ActiveCredential(db, author), Active)
  }

  lemma ActiveAuthorFound(db: Db, author: string)
    requires Settled(db) && author in db.authors && db.authors[author].standing == Active
    ensures ActiveFound(db, author)
  {
    SettledAuthor(db, author);
    ActiveMeansCurrent(db, author);
  }

  lemma PreparedFits(digest: Token -> string, db: Db, op: Operation)
    requires Prepared(digest, db, op).Some?
    requires !op.Register? ==> ActiveFound(db, op.author)
    ensures var (d, e) := Prepared(digest, db, op).value; MetadataValid(e) && Owned(d, e)
  {
  }

  lemma PreparedOwned(digest: Token -> string, db: Db, op: Operation)
    requires Settled(db) && Prepared(digest, db, op).Some?
    ensures var (d, e) := Prepared(digest, db, op).value;
            && MetadataValid(e) && Owned(d, e) && NumberUnused(d.audit, e.author, e.number) && Covers(db, d, e)
            && e.actor == op.q.actor && e.idempotencyKey == op.q.idempotencyKey
  {
    PreparedCovers(digest, db, op);
    PreparedNumbered(digest, db, op);
    NextNumberUnused(db, Prepared(digest, db, op).value.1);
    if !op.Register? {
      ActiveAuthorFound(db, op.author);
    }
    PreparedFits(digest, db, op);
  }

  lemma CoveredSettles(db: Db, d: Db, e: Event, after: Db)
    requires NothingPending(db) && Prepares(db, d) && Covers(db, d, e) && Moved(d, after, e)
    ensures NothingPending(after)
  {
    forall a | a in after.authors
      ensures after.authors[a].standing != Pending
    {
      assert a != e.author ==> a in db.authors;
    }
    forall f | f in after.keys
      ensures after.keys[f].standing != Pending
    {
      assert f !in db.keys ==> e.newKey == Some(f);
    }
    forall c | c in after.credentials
      ensures after.credentials[c].standing != Pending
    {
      assert c !in db.credentials ==> e.newCredential == Some(c);
    }
  }

  /** How a committed operation leads from tables to tables: pending rows `d` first, then the event's cascade. */
  ghost predicate Effect(db: Db, d: Db, e: Event, after: Db) {
    && Prepares(db, d) && Moved(d, after, e) && Fits(d, e)
    && e.author in d.authors && d.authors[e.author].standing != Revoked
  }

  /** What becomes of a prepared operation: its audit row is refused for a used key alone, and otherwise settles the
      tables. */
  ghost predicate Lands(db: Db, d: Db, e: Event, r: Result<Db, IdentityError>) {
    && (r.Ok? <==> ActorKeyUnused(db.audit, e.actor, e.idempotencyKey)) && r != Err(CascadeAborted)
    && (r.Ok? ==> Settled(r.value) && Effect(db, d, e, r.value))
  }

  lemma PreparedSettles(db: Db, d: Db, e: Event)
    requires Settled(db) && Consistent(d) && Prepares(db, d) && Covers(db, d, e)
    requires MetadataValid(e) && Owned(d, e) && NumberUnused(d.audit, e.author, e.number)
    ensures Lands(db, d, e, InsertEvent(d, e))
  {
    CascadesComplete(d, e);
    if InsertEvent(d, e).Ok? {
      InsertKeepsConsistent(d, e);
      AcceptedFits(d, e);
      CoveredSettles(db, d, e, After(d, e));
    }
  }

  lemma PreparedLands(digest: Token -> string, db: Db, op: Operation)
    requires Settled(db) && Prepared(digest, db, op).Some?
    ensures var (d, e) := Prepared(digest, db, op).value;
            Lands(db, d, e, InsertEvent(d, e)) && e.actor == op.q.actor && e.idempotencyKey == op.q.idempotencyKey
  {
    var (d, e) := Prepared(digest, db, op).value;
    PreparedConsistent(digest, db, op);
    PreparedOwned(digest, db, op);
    PreparedSettles(db, d, e);
  }

  /** Every operation either changes nothing or leads from settled tables to settled tables, as its one audit row
      says. Beyond its own preconditions and the uniqueness of what it inserts, only a used idempotency key can stop
      it. */
  lemma {:induction false} OperationsSettle(digest: Token -> string, db: Db, op: Operation)
    requires Settled(db)
    ensures Attempt(digest, db, op).Ok? <==>
              Prepared(digest, db, op).Some? && ActorKeyUnused(db.audit, op.q.actor, op.q.idempotencyKey)
    ensures Attempt(digest, db, op) != Err(CascadeAborted)
    ensures Attempt(digest, db, op).Ok? ==>
              && Settled(Attempt(digest, db, op).value)
              && Effect(db, Prepared(digest, db, op).value.0, Prepared(digest, db, op).value.1,
                    Attempt(digest, db, op).value)
  {
    PreparedInserts(digest, db, op);
    if Prepared(digest, db, op).Some? {
      PreparedLands(digest, db, op);
    }
  }

  // ---------- whole runs ----------

  ghost predicate Carries(digest: Token -> string, c: Credential, i: (Token, Time)) {
    c.lookup == i.0.lookup && c.hash == digest(i.0) && c.expires == i.1
  }

  /** What each credential row keeps of the token that went out with it. */
  ghost predicate AllCarry(digest: Token -> string, issued: map<string, (Token, Time)>, db: Db) {
    forall c | c in db.credentials :: c in issued && Carries(digest, db.credentials[c], issued[c])
  }

  ghost predicate IssuedOk(digest: Token -> string, s: System) {
    AllCarry(digest, s.issued, s.db)
  }

  /** The credential row an operation inserts, if any, carries its token; the others were there before. */
  ghost predicate OnlyIssues(digest: Token -> string, db: Db, d: Db, op: Operation) {
    forall c | c in d.credentials ::
      if (op.Register? || op.ReplaceCredential?) && c == op.credential
      then Carries(digest, d.credentials[c], (op.token, op.expires))
      else c in db.credentials && d.credentials[c] == db.credentials[c]
  }

  lemma PreparedIssues(digest: Token -> string, db: Db, op: Operation)
    requires Prepared(digest, db, op).Some?
    ensures OnlyIssues(digest, db, Prepared(digest, db, op).value.0, op)
  {
  }

  lemma IssuedCarry(digest: Token -> string, issued: map<string, (Token, Time)>, db: Db, d: Db, op: Operation)
    requires AllCarry(digest, issued, db) && OnlyIssues(digest, db, d, op)
    ensures AllCarry(digest, IssuedBy(issued, op), d)
  {
  }

  lemma MovedCarry(digest: Token -> string, issued: map<string, (Token, Time)>, d: Db, after: Db, e: Event)
    requires AllCarry(digest, issued, d) && CredentialsMoved(d, after, e)
    ensures AllCarry(digest, issued, after)
  {
  }

  lemma AttemptCarries(digest: Token -> string, s: System, op: Operation)
    requires Settled(s.db) && IssuedOk(digest, s) && Attempt(digest, s.db, op).Ok?
    ensures AllCarry(digest, IssuedBy(s.issued, op), Attempt(digest, s.db, op).value)
  {
    OperationsSettle(digest, s.db, op);
    var p := Prepared(digest, s.db, op).value;
    PreparedIssues(digest, s.db, op);
    IssuedCarry(digest, s.issued, s.db, p.0, op);
    MovedCarry(digest, IssuedBy(s.issued, op), p.0, Attempt(digest, s.db, op).value, p.1);
  }

  lemma NextIssued(digest: Token -> string, s: System, op: Operation)
    requires Settled(s.db) && IssuedOk(digest, s)
    ensures IssuedOk(digest, Next(digest, s, op))
  {
    if Attempt(digest, s.db, op).Ok? {
      AttemptCarries(digest, s, op);
    }
  }

  lemma {:induction false} RunSettled(digest: Token -> string, ops: seq<Operation>)
    ensures Settled(Run(digest, START, ops).db) && IssuedOk(digest, Run(digest, START, ops))
  {
    if ops != [] {
      RunSettled(digest, ops[..|ops| - 1]);
      OperationsSettle(digest, Run(digest, START, ops[..|ops| - 1]).db, ops[|ops| - 1]);
      NextIssued(digest, Run(digest, START, ops[..|ops| - 1]), ops[|ops| - 1]);
    }
  }

  // ---------- the committed state, exactly ----------

  /** After any operations: an active author has exactly one active key, which is the author row's and the one the
      audit names last, and exactly one active credential; a revoked author has none; and the audit numbers of every
      author are exactly 1 to its revision, each once. */
  lemma {:induction false} IdentityStateIsExact(digest: Token -> string, ops: seq<Operation>, a: string)
    requires a in Run(digest, START, ops).db.authors
    ensures var db := Run(digest, START, ops).db;
            var author := db.authors[a];
            var v := Replay(db.audit, a);
            && v.Some? && author.revision == v.value.revision &&
                  author.standing == (if v.value.active then Active else Revoked)
            && (forall f | f in db.keys && db.keys[f].author == a ::
                  && (db.keys[f].standing == Active <==> author.standing == Active && f == v.value.key)
                  && (db.keys[f].publicKey == author.publicKey <==> f == v.value.key))
            && v.value.key in db.keys && db.keys[v.value.key].author == a &&
                  db.keys[v.value.key].publicKey == author.publicKey
            && (forall c | c in db.credentials && db.credentials[c].author == a ::
                  db.credentials[c].standing == Active <==> author.standing == Active && c == v.value.credential)
            && v.value.credential in db.credentials && db.credentials[v.value.credential].author == a
            && (forall n: nat :: CountNumber(db.audit, a, n) == if 1 <= n <= author.revision then 1 else 0)
  {
    RunSettled(digest, ops);
    var db := Run(digest, START, ops).db;
    assert AuthorOk(db, a, db.authors[a]);
    SettledAuthor(db, a);
    ActiveMeansCurrent(db, a);
  }

  // ---------- revocation is for good ----------

  ghost predicate RevocationsKept(db: Db, after: Db) {
    && (forall f | f in db.keys && db.keys[f].standing == Revoked :: f in after.keys && after.keys[f] == db.keys[f])
    && (forall c | c in db.credentials && db.credentials[c].standing == Revoked ::
          c in after.credentials && after.credentials[c] == db.credentials[c])
    && (forall a | a in db.authors && db.authors[a].standing == Revoked ::
          a in after.authors && after.authors[a] == db.authors[a])
    && db.audit <= after.audit
  }

  lemma MovedKeepsRevocations(db: Db, d: Db, e: Event, after: Db)
    requires Effect(db, d, e, after) && NothingPending(db)
    ensures RevocationsKept(db, after)
  {
  }

  lemma KeptReflexive(db: Db)
    ensures RevocationsKept(db, db)
  {
  }

  lemma KeptTransitive(db: Db, mid: Db, after: Db)
    requires RevocationsKept(db, mid) && RevocationsKept(mid, after)
    ensures RevocationsKept(db, after)
  {
  }

  lemma AttemptKeepsRevocations(digest: Token -> string, db: Db, op: Operation)
    requires Settled(db) && Attempt(digest, db, op).Ok?
    ensures RevocationsKept(db, Attempt(digest, db, op).value)
  {
    OperationsSettle(digest, db, op);
    var p := Prepared(digest, db, op).value;
    MovedKeepsRevocations(db, p.0, p.1, Attempt(digest, db, op).value);
  }

  lemma NextKeepsRevocations(digest: Token -> string, s: System, op: Operation)
    requires Settled(s.db)
    ensures RevocationsKept(s.db, Next(digest, s, op).db)
  {
    if Attempt(digest, s.db, op).Ok? {
      AttemptKeepsRevocations(digest, s.db, op);
    } else {
      KeptReflexive(s.db);
    }
  }

  ghost predicate KeptBy(digest: Token -> string, db: Db, ops: seq<Operation>) {
    RevocationsKept(db, Run(digest, START, ops).db)
  }

  lemma KeptOneMore(digest: Token -> string, db: Db, ops: seq<Operation>, op: Operation)
    requires KeptBy(digest, db, ops)
    ensures KeptBy(digest, db, ops + [op])
  {
    var s := Run(digest, START, ops);
    assert (ops + [op])[..|ops + [op]| - 1] == ops;
    assert Run(digest, START, ops + [op]) == Next(digest, s, op);
    RunSettled(digest, ops);
    NextKeepsRevocations(digest, s, op);
    KeptTransitive(db, s.db, Next(digest, s, op).db);
  }

  lemma Regroup<T>(a: seq<T>, b: seq<T>)
    requires b != []
    ensures (a + [b[0]]) + b[1..] == a + b
  {
  }

  lemma {:induction false} KeptByRuns(digest: Token -> string, db: Db, ops: seq<Operation>, more: seq<Operation>)
    requires KeptBy(digest, db, ops)
    ensures KeptBy(digest, db, ops + more)
    decreases |more|
  {
    if more == [] {
      assert ops + more == ops;
    } else {
      var first, rest := ops + [more[0]], more[1..];
      KeptOneMore(digest, db, ops, more[0]);
      KeptByRuns(digest, db, first, rest);
      Regroup(ops, more);
    }
  }

  /** No later operation touches a revoked key, credential or author, or rewrites the audit. */
  lemma {:induction false} RevocationIsFinal(digest: Token -> string, ops: seq<Operation>, more: seq<Operation>)
    ensures RevocationsKept(Run(digest, START, ops).db, Run(digest, START, ops + more).db)
  {
    var db := Run(digest, START, ops).db;
    KeptReflexive(db);
    KeptByRuns(digest, db, ops, more);
    assert KeptBy(digest, db, ops + more);
  }

  // ---------- authentication ----------

  datatype Authenticated = Authenticated(author: string, subject: string, handle: string, publicKey: string,
      credential: string)

  ghost function Found(db: Db, lookup: string): Option<string> {
    if c :| c in db.credentials && db.credentials[c].lookup == lookup then Some(c) else None
  }

  ghost function Authenticate(digest: Token -> string, db: Db, t: Token, now: Time): Option<Authenticated> {
    var found := Found(db, t.lookup);
    if found.None? then None
    else
      var c := db.credentials[found.value];
      if c.author !in db.authors then None
      else
        var a := db.authors[c.author];
        if digest(t) != c.hash || c.standing != Active || a.standing != Active || c.expires <= now then None
        else Some(Authenticated(c.author, a.subject, a.handle, a.publicKey, found.value))
  }

  /** The token of the author's latest registration or credential rotation, not expired and not revoked since. */
  ghost predicate CurrentToken(s: System, author: string, t: Token, now: Time) {
    var v := Replay(s.db.audit, author);
    && v.Some? && v.value.active && v.value.credential in s.issued
    && s.issued[v.value.credential].0 == t && now < s.issued[v.value.credential].1
  }

  ghost predicate Injective(digest: Token -> string) {
    forall t, u | digest(t) == digest(u) :: t == u
  }

  /** Authentication as one author is decided by the current token, and answers with what the audit says is current. */
  ghost predicate AuthenticatesIn(digest: Token -> string, s: System, t: Token, now: Time, author: string) {
    var r := Authenticate(digest, s.db, t, now);
    && (r.Some? && r.value.author == author <==> CurrentToken(s, author, t, now))
    && (r.Some? && r.value.author == author ==> AnswersCurrent(s.db, r.value))
  }

  /** The answer names the author's current credential and public key. */
  ghost predicate AnswersCurrent(db: Db, r: Authenticated) {
    var v := Replay(db.audit, r.author);
    && v.Some? && r.credential == v.value.credential
    && v.value.key in db.keys && r.publicKey == db.keys[v.value.key].publicKey
  }

  lemma SettledAuthenticates(digest: Token -> string, s: System, t: Token, now: Time, author: string)
    requires Injective(digest) && Settled(s.db) && IssuedOk(digest, s)
    ensures AuthenticatesIn(digest, s, t, now, author)
  {
    var r := Authenticate(digest, s.db, t, now);
    if CurrentToken(s, author, t, now) {
      CurrentAuthenticates(digest, s, t, now, author);
    }
    if r.Some? && r.value.author == author {
      SettledAuthor(s.db, author);
      assert Carries(digest, s.db.credentials[r.value.credential], s.issued[r.value.credential]);
      ActiveMeansCurrent(s.db, author);
    }
  }

  /** After any operations, a token authenticates as an author exactly when it is the one that went out with the
      author's latest committed registration or credential rotation, has not expired, and the author has not been
      revoked; and the public key returned is the one the author's latest key event names. */
  lemma {:induction false} AuthenticatesIffCurrent(digest: Token -> string, ops: seq<Operation>, t: Token, now: Time,
      author: string)
    requires Injective(digest)
    ensures AuthenticatesIn(digest, Run(digest, START, ops), t, now, author)
  {
    RunSettled(digest, ops);
    SettledAuthenticates(digest, Run(digest, START, ops), t, now, author);
  }

  lemma CurrentAuthenticates(digest: Token -> string, s: System, t: Token, now: Time, author: string)
    requires Settled(s.db) && IssuedOk(digest, s) && CurrentToken(s, author, t, now)
    ensures var r := Authenticate(digest, s.db, t, now); r.Some? && r.value.author == author
  {
    var c := Replay(s.db.audit, author).value.credential;
    assert author in s.db.authors;
    SettledAuthor(s.db, author);
    assert AuthorOk(s.db, author, s.db.authors[author]);
    assert Carries(digest, s.db.credentials[c], s.issued[c]);
    ActiveMeansCurrent(s.db, author);
    assert s.db.credentials[c].lookup == t.lookup;
    assert Found(s.db, t.lookup) == Some(c);
  }

  /** For every author at once. */
  ghost predicate AuthenticatesAll(digest: Token -> string, ops: seq<Operation>, t: Token, now: Time,
      r: Option<Authenticated>) {
    && (forall author :: (r.Some? && r.value.author == author) <==>
          CurrentToken(Run(digest, START, ops), author, t, now))
    && (r.Some? ==> AnswersCurrent(Run(digest, START, ops).db, r.value))
  }

  lemma AuthenticatesEvery(digest: Token -> string, ops: seq<Operation>, t: Token, now: Time)
    requires Injective(digest)
    ensures AuthenticatesAll(digest, ops, t, now, Authenticate(digest, Run(digest, START, ops).db, t, now))
  {
    var r := Authenticate(digest, Run(digest, START, ops).db, t, now);
    forall author
      ensures (r.Some? && r.value.author == author) <==> CurrentToken(Run(digest, START, ops), author, t, now)
    {
      AuthenticatesIffCurrent(digest, ops, t, now, author);
    }
    if r.Some? {
      AuthenticatesIffCurrent(digest, ops, t, now, r.value.author);
    }
  }
}
