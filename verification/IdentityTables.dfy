/** Author identities: the rows, the guards on every update of them, and the cascade of updates that inserting one
    audit row sets off. Each guarded update may abort, which rolls the whole transaction back. */
module IdentityTables {
  import opened Wrappers

  datatype Standing = Pending | Active | Revoked

  datatype Author = Author(subject: string, handle: string, publicKey: string, standing: Standing, revision: nat)

  /** A signing key, under its fingerprint. */
  datatype Key = Key(author: string, publicKey: string, standing: Standing, revokedAt: Option<Time>)

  /** A bearer credential, under its id. */
  datatype Credential = Credential(
    author: string, lookup: string, hash: string, expires: Time, standing: Standing, revokedAt: Option<Time>)

  datatype EventType = Registered | KeyRotated | CredentialRotated | AuthorRevoked

  datatype Event = Event(
    author: string, number: nat, actor: string, idempotencyKey: string, kind: EventType,
    priorKey: Option<string>, newKey: Option<string>, priorCredential: Option<string>, newCredential: Option<string>,
        at: Time)

  datatype Db = Db(authors: map<string, Author>, keys: map<string, Key>, credentials: map<string, Credential>,
      audit: seq<Event>)

  datatype IdentityError =
    | KeyReused | NotOwned | CascadeAborted | Duplicate | NotFound | InvalidTransition | InvalidIdentity

  const EMPTY: Db := Db(map[], map[], map[], [])

  // ---------- guards on one updated row ----------

  predicate StandingStepAllowed(o: Standing, n: Standing) {
    n != o ==> (o == Pending && n == Active) || (o == Active && n == Revoked)
  }

  /** The audit row that justifies activating or revoking a key. */
  predicate JustifiesKey(db: Db, e: Event, author: string, fingerprint: string, n: Standing) {
    && e.author == author && author in db.authors
    && if n == Active then
         && e.newKey == Some(fingerprint)
         && ((e.kind == Registered && e.number == 1) ||
               (e.kind == KeyRotated && e.number == db.authors[author].revision + 1))
       else
         && e.priorKey == Some(fingerprint)
         && e.number == db.authors[author].revision + 1
         && (e.kind == KeyRotated || e.kind == AuthorRevoked)
  }

  predicate KeyUpdateAllowed(db: Db, fingerprint: string, n: Key)
    requires fingerprint in db.keys
  {
    var o := db.keys[fingerprint];
    && StandingStepAllowed(o.standing, n.standing)
    && (n.standing == Revoked <==> n.revokedAt.Some?)
    && (n.revokedAt != o.revokedAt ==> o.standing == Active && n.standing == Revoked && o.revokedAt.None?)
    && (n.standing != o.standing ==>
          exists e :: e in db.audit && JustifiesKey(db, e, o.author, fingerprint, n.standing))
    && (n.standing == Active ==>
          forall other | other in db.keys && db.keys[other].author == o.author && db.keys[other].standing == Active ::
              other == fingerprint)
  }

  predicate JustifiesCredential(db: Db, e: Event, author: string, id: string, n: Standing) {
    && e.author == author && author in db.authors
    && if n == Active then
         && e.newCredential == Some(id)
         && ((e.kind == Registered && e.number == 1) ||
               (e.kind == CredentialRotated && e.number == db.authors[author].revision + 1))
       else
         && e.priorCredential == Some(id)
         && e.number == db.authors[author].revision + 1
         && (e.kind == CredentialRotated || e.kind == AuthorRevoked)
  }

  predicate CredentialUpdateAllowed(db: Db, id: string, n: Credential)
    requires id in db.credentials
  {
    var o := db.credentials[id];
    && StandingStepAllowed(o.standing, n.standing)
    && (n.standing == Revoked <==> n.revokedAt.Some?)
    && (n.revokedAt != o.revokedAt ==> o.standing == Active && n.standing == Revoked && o.revokedAt.None?)
    && (n.standing != o.standing ==> exists e :: e in db.audit && JustifiesCredential(db, e, o.author, id, n.standing))
    && (n.standing == Active ==>
          forall other | other in db.credentials && db.credentials[other].author == o.author &&
              db.credentials[other].standing == Active ::
            other == id)
  }

  predicate HasKey(db: Db, author: string, publicKey: string, fingerprint: Option<string>, standing: Standing) {
    exists f :: f in db.keys && (fingerprint.Some? ==> fingerprint.value == f) && db.keys[f].author == author &&
                db.keys[f].publicKey == publicKey && db.keys[f].standing == standing
  }

  predicate HasCredential(db: Db, author: string, id: Option<string>, standing: Standing) {
    id.Some? && id.value in db.credentials && db.credentials[id.value].author == author &&
        db.credentials[id.value].standing == standing
  }

  /** The audit row that justifies a change of the author row. */
  predicate JustifiesAuthor(db: Db, e: Event, id: string, o: Author, n: Author) {
    && e.author == id && e.number == n.revision
    && match e.kind
       case Registered =>
         && o.standing == Pending && n.standing == Active && n.publicKey == o.publicKey && n.revision == 1
         && e.newKey.Some? && HasKey(db, id, n.publicKey, e.newKey, Active)
         && HasCredential(db, id, e.newCredential, Active)
       case KeyRotated =>
         && o.standing == Active && n.standing == Active && n.revision == o.revision + 1
         && e.priorKey.Some? && HasKey(db, id, o.publicKey, e.priorKey, Revoked)
         && e.newKey.Some? && HasKey(db, id, n.publicKey, e.newKey, Active)
       case CredentialRotated =>
         && o.standing == Active && n.standing == Active && n.publicKey == o.publicKey && n.revision == o.revision + 1
         && HasCredential(db, id, e.priorCredential, Revoked)
         && HasCredential(db, id, e.newCredential, Active)
       case AuthorRevoked =>
         && o.standing == Active && n.standing == Revoked && n.publicKey == o.publicKey && n.revision == o.revision + 1
         && (forall f | f in db.keys && db.keys[f].author == id :: db.keys[f].standing != Active)
         && (forall c | c in db.credentials && db.credentials[c].author == id :: db.credentials[c].standing != Active)
  }

  /** Which columns an update names decides which guards look at it. */
  predicate AuthorUpdateAllowed(db: Db, id: string, n: Author, setsStanding: bool, setsKey: bool, setsRevision: bool)
    requires id in db.authors
  {
    var o := db.authors[id];
    && (setsStanding ==> StandingStepAllowed(o.standing, n.standing))
    && (setsRevision ==> n.revision == o.revision + 1)
    && (setsStanding || setsKey ==>
          || (o.standing == Pending && n.standing == Active && n.publicKey == o.publicKey && n.revision == o.revision)
          || n.revision == o.revision + 1)
    && (setsKey ==> HasKey(db, id, n.publicKey, None, Active) && HasKey(db, id, o.publicKey, None, Revoked))
    && (n != o ==> exists e :: e in db.audit && JustifiesAuthor(db, e, id, o, n))
    && (forall other | other in db.authors && other != id :: db.authors[other].publicKey != n.publicKey)
  }

  // ---------- the single updates of a cascade; each must change exactly one row ----------

  function SetKey(db: Db, author: string, fingerprint: Option<string>, to: Standing, at: Time)
      : Result<Db, IdentityError> {
    if fingerprint.None? || fingerprint.value !in db.keys then Err(CascadeAborted)
    else
      var o := db.keys[fingerprint.value];
      var n := o.(standing := to, revokedAt := if to == Revoked then Some(at) else o.revokedAt);
      if o.author != author || o.standing != (if to == Active then Pending else Active) then Err(CascadeAborted)
      else if !KeyUpdateAllowed(db, fingerprint.value, n) then Err(CascadeAborted)
      else Ok(db.(keys := db.keys[fingerprint.value := n]))
  }

  function SetCredential(db: Db, author: string, id: Option<string>, to: Standing, at: Time)
      : Result<Db, IdentityError> {
    if id.None? || id.value !in db.credentials then Err(CascadeAborted)
    else
      var o := db.credentials[id.value];
      var n := o.(standing := to, revokedAt := if to == Revoked then Some(at) else o.revokedAt);
      if o.author != author || o.standing != (if to == Active then Pending else Active) then Err(CascadeAborted)
      else if !CredentialUpdateAllowed(db, id.value, n) then Err(CascadeAborted)
      else Ok(db.(credentials := db.credentials[id.value := n]))
  }

  function SetAuthor(db: Db, e: Event): Result<Db, IdentityError> {
    if e.author !in db.authors then Err(CascadeAborted)
    else
      var o := db.authors[e.author];
      var n := match e.kind
               case Registered => o.(standing := Active)
               case KeyRotated =>
                 o.(publicKey := if e.newKey.Some? &&
                     e.newKey.value in db.keys then db.keys[e.newKey.value].publicKey else "",
                    revision := e.number)
               case CredentialRotated => o.(revision := e.number)
               case AuthorRevoked => o.(standing := Revoked, revision := e.number);
      if (if e.kind == Registered then o.standing != Pending || o.revision != 1
          else o.standing != Active || o.revision + 1 != e.number)
      then Err(CascadeAborted)
      else if !AuthorUpdateAllowed(db, e.author, n, e.kind in {Registered, AuthorRevoked},
          e.kind == KeyRotated, e.kind != Registered)
      then Err(CascadeAborted)
      else Ok(db.(authors := db.authors[e.author := n]))
  }

  /** The updates one inserted row sets off, in order. */
  function Cascade(db: Db, e: Event): Result<Db, IdentityError> {
    match e.kind
    case Registered =>
      var a := SetKey(db, e.author, e.newKey, Active, e.at);
      if a.Err? then a else
      var b := SetCredential(a.value, e.author, e.newCredential, Active, e.at);
      if b.Err? then b else SetAuthor(b.value, e)
    case KeyRotated =>
      var a := SetKey(db, e.author, e.priorKey, Revoked, e.at);
      if a.Err? then a else
      var b := SetKey(a.value, e.author, e.newKey, Active, e.at);
      if b.Err? then b else SetAuthor(b.value, e)
    case CredentialRotated =>
      var a := SetCredential(db, e.author, e.priorCredential, Revoked, e.at);
      if a.Err? then a else
      var b := SetCredential(a.value, e.author, e.newCredential, Active, e.at);
      if b.Err? then b else SetAuthor(b.value, e)
    case AuthorRevoked =>
      var a := SetKey(db, e.author, e.priorKey, Revoked, e.at);
      if a.Err? then a else
      var b := if e.priorCredential.None? then a
          else SetCredential(a.value, e.author, e.priorCredential, Revoked, e.at);
      if b.Err? then b else SetAuthor(b.value, e)
  }

  // ---------- inserting the audit row ----------

  predicate ActorKeyUnused(audit: seq<Event>, actor: string, idempotencyKey: string) {
    forall e | e in audit :: !(e.actor == actor && e.idempotencyKey == idempotencyKey)
  }

  predicate NumberUnused(audit: seq<Event>, author: string, number: nat) {
    forall e | e in audit :: !(e.author == author && e.number == number)
  }

  /** The row constraint: each event names exactly the keys and credentials of its kind. */
  predicate MetadataValid(e: Event) {
    match e.kind
    case Registered => e.priorKey.None? && e.newKey.Some? && e.priorCredential.None? && e.newCredential.Some?
    case KeyRotated =>
      e.priorKey.Some? && e.newKey.Some? && e.priorKey != e.newKey && e.priorCredential.None? && e.newCredential.None?
    case CredentialRotated =>
      e.priorKey.None? && e.newKey.None? && e.priorCredential.Some? && e.newCredential.Some? &&
          e.priorCredential != e.newCredential
    case AuthorRevoked => e.priorKey.Some? && e.newKey.None? && e.newCredential.None?
  }

  predicate KeyIs(db: Db, author: string, fingerprint: Option<string>, standing: Standing) {
    && fingerprint.Some? && fingerprint.value in db.keys
    && db.keys[fingerprint.value].author == author && db.keys[fingerprint.value].standing == standing
  }

  /** The ownership guard: the event fits the author's rows as they are. */
  predicate Owned(db: Db, e: Event) {
    && e.author in db.authors
    && var a := db.authors[e.author];
       match e.kind
       case Registered =>
         && a.standing == Pending && a.revision == 1 && e.number == 1
         && KeyIs(db, e.author, e.newKey, Pending) && db.keys[e.newKey.value].publicKey == a.publicKey
         && HasCredential(db, e.author, e.newCredential, Pending)
       case KeyRotated =>
         && a.standing == Active && a.revision + 1 == e.number
         && KeyIs(db, e.author, e.priorKey, Active) && KeyIs(db, e.author, e.newKey, Pending)
         && db.keys[e.newKey.value].publicKey != db.keys[e.priorKey.value].publicKey
       case CredentialRotated =>
         && a.standing == Active && a.revision + 1 == e.number
         && HasCredential(db, e.author, e.priorCredential, Active) &&
               HasCredential(db, e.author, e.newCredential, Pending)
       case AuthorRevoked =>
         && a.standing == Active && a.revision + 1 == e.number
         && KeyIs(db, e.author, e.priorKey, Active)
         && (|| (e.priorCredential.None? &&
                 forall c | c in db.credentials && db.credentials[c].author == e.author ::
                     db.credentials[c].standing != Active)
             || HasCredential(db, e.author, e.priorCredential, Active))
  }

  function InsertEvent(db: Db, e: Event): Result<Db, IdentityError> {
    if !ActorKeyUnused(db.audit, e.actor, e.idempotencyKey) then Err(KeyReused)
    else if !NumberUnused(db.audit, e.author, e.number) then Err(Duplicate)
    else if !MetadataValid(e) || !Owned(db, e) then Err(NotOwned)
    else Cascade(db.(audit := db.audit + [e]), e)
  }

  // ---------- the four operations ----------

  datatype Registration = Registration(
    id: string, subject: string, handle: string, publicKey: string, fingerprint: string,
    credential: string, lookup: string, hash: string, expires: Time)

  datatype Request = Request(actor: string, idempotencyKey: string, at: Time)

  predicate KeyInsertable(db: Db, publicKey: string, fingerprint: string) {
    fingerprint !in db.keys && forall f | f in db.keys :: db.keys[f].publicKey != publicKey
  }

  predicate CredentialInsertable(db: Db, id: string, lookup: string, hash: string) {
    id !in db.credentials && forall c | c in db.credentials ::
        db.credentials[c].lookup != lookup && db.credentials[c].hash != hash
  }

  predicate AuthorInsertable(db: Db, r: Registration) {
    && r.id !in db.authors
    && forall a | a in db.authors ::
         db.authors[a].subject != r.subject && db.authors[a].handle != r.handle &&
             db.authors[a].publicKey != r.publicKey
  }

  /** The tables with the pending rows of a registration. */
  function WithRegistration(db: Db, r: Registration): Db {
    db.(authors := db.authors[r.id := Author(r.subject, r.handle, r.publicKey, Pending, 1)],
        keys := db.keys[r.fingerprint := Key(r.id, r.publicKey, Pending, None)],
        credentials := db.credentials[r.credential := Credential(r.id, r.lookup, r.hash, r.expires, Pending, None)])
  }

  function RegistrationEvent(r: Registration, q: Request): Event {
    Event(r.id, 1, q.actor, q.idempotencyKey, Registered, None, Some(r.fingerprint), None, Some(r.credential), q.at)
  }

  function RegisterAuthor(db: Db, r: Registration, q: Request): Result<Db, IdentityError> {
    if !AuthorInsertable(db, r) || !KeyInsertable(db, r.publicKey, r.fingerprint) ||
       !CredentialInsertable(db, r.credential, r.lookup, r.hash) then Err(Duplicate)
    else InsertEvent(WithRegistration(db, r), RegistrationEvent(r, q))
  }

  /** The author's active key. */
  ghost function ActiveKey(db: Db, author: string): Option<string> {
    if f :| f in db.keys && db.keys[f].author == author && db.keys[f].standing == Active then Some(f) else None
  }

  ghost function ActiveCredential(db: Db, author: string): Option<string> {
    if c :| c in db.credentials && db.credentials[c].author == author && db.credentials[c].standing == Active
    then Some(c) else None
  }

  function KeyEvent(db: Db, author: string, prior: string, fingerprint: string, q: Request): Event
    requires author in db.authors
  {
    Event(author, db.authors[author].revision + 1, q.actor, q.idempotencyKey, KeyRotated, Some(prior),
        Some(fingerprint), None, None, q.at)
  }

  ghost function RotateKey(db: Db, author: string, publicKey: string, fingerprint: string, expected: nat,
      q: Request): Result<Db, IdentityError> {
    if author !in db.authors then Err(NotFound)
    else if db.authors[author].standing != Active || db.authors[author].revision != expected then Err(InvalidTransition)
    else
      var current := ActiveKey(db, author);
      if current.None? || current.value == fingerprint then Err(InvalidTransition)
      else if !KeyInsertable(db, publicKey, fingerprint) then Err(Duplicate)
      else
        InsertEvent(db.(keys := db.keys[fingerprint := Key(author, publicKey, Pending, None)]),
                    KeyEvent(db, author, current.value, fingerprint, q))
  }

  datatype Issue = Issue(id: string, lookup: string, hash: string, expires: Time)

  function CredentialEvent(db: Db, author: string, prior: string, id: string, q: Request): Event
    requires author in db.authors
  {
    Event(author, db.authors[author].revision + 1, q.actor, q.idempotencyKey, CredentialRotated, None, None,
        Some(prior), Some(id), q.at)
  }

  ghost function RotateCredential(db: Db, author: string, i: Issue, expected: nat, q: Request)
      : Result<Db, IdentityError> {
    if author !in db.authors then Err(NotFound)
    else if db.authors[author].standing != Active || db.authors[author].revision != expected then Err(InvalidTransition)
    else
      var current := ActiveCredential(db, author);
      if current.None? then Err(InvalidTransition)
      else if !CredentialInsertable(db, i.id, i.lookup, i.hash) then Err(Duplicate)
      else
        InsertEvent(db.(credentials := db.credentials[i.id := Credential(author, i.lookup, i.hash, i.expires, Pending,
            None)]),
                    CredentialEvent(db, author, current.value, i.id, q))
  }

  function RevocationEvent(db: Db, author: string, key: string, credential: Option<string>, q: Request): Event
    requires author in db.authors
  {
    Event(author, db.authors[author].revision + 1, q.actor, q.idempotencyKey, AuthorRevoked, Some(key), None,
        credential, None, q.at)
  }

  ghost function RevokeAuthor(db: Db, author: string, q: Request): Result<Db, IdentityError> {
    if author !in db.authors then Err(NotFound)
    else if db.authors[author].standing != Active then Err(InvalidTransition)
    else
      var current := ActiveKey(db, author);
      if current.None? then Err(InvalidTransition)
      else InsertEvent(db, RevocationEvent(db, author, current.value, ActiveCredential(db, author), q))
  }
}
