/** The identity audit is the truth: its replay determines every row, and no audit row that is accepted can leave
    its cascade half done. */
module IdentityLifecycle {
  import opened Wrappers
  import opened IdentityTables

  // ---------- replaying the audit ----------

  /** The identity an author's events describe: the current key and credential, unless revoked. */
  datatype View = View(active: bool, revision: nat, key: string, credential: string)

  /** One event. Each must continue the previous one and name the current key or credential it replaces. */
  function ReplayEvent(v: Option<View>, e: Event): Option<View> {
    match e.kind
    case Registered =>
      if v.None? && e.number == 1 && e.newKey.Some? && e.newCredential.Some?
      then Some(View(true, 1, e.newKey.value, e.newCredential.value)) else None
    case KeyRotated =>
      if v.Some? && v.value.active && e.number == v.value.revision + 1 && e.priorKey == Some(v.value.key) &&
          e.newKey.Some?
      then Some(v.value.(revision := e.number, key := e.newKey.value)) else None
    case CredentialRotated =>
      if v.Some? && v.value.active && e.number == v.value.revision + 1 &&
         e.priorCredential == Some(v.value.credential) && e.newCredential.Some?
      then Some(v.value.(revision := e.number, credential := e.newCredential.value)) else None
    case AuthorRevoked =>
      if v.Some? && v.value.active && e.number == v.value.revision + 1 &&
         e.priorKey == Some(v.value.key) && e.priorCredential == Some(v.value.credential)
      then Some(v.value.(revision := e.number, active := false)) else None
  }

  function Replay(audit: seq<Event>, author: string): Option<View> {
    if audit == [] then None
    else
      var e := audit[|audit| - 1];
      var v := Replay(audit[..|audit| - 1], author);
      if e.author == author then ReplayEvent(v, e) else v
  }

  function CountNumber(audit: seq<Event>, author: string, number: nat): nat {
    if audit == [] then 0
    else
      var e := audit[|audit| - 1];
      CountNumber(audit[..|audit| - 1], author, number) + (if e.author == author && e.number == number then 1 else 0)
  }

  lemma ReplayAppended(audit: seq<Event>, e: Event, author: string)
    ensures Replay(audit + [e], author) == if e.author == author then ReplayEvent(Replay(audit, author), e)
              else Replay(audit, author)
    ensures forall n: nat :: CountNumber(audit + [e], author, n) ==
                             CountNumber(audit, author, n) + (if e.author == author && e.number == n then 1 else 0)
  {
    assert (audit + [e])[..|audit + [e]| - 1] == audit;
  }

  // ---------- tables that agree with their audit ----------

  ghost predicate AuthorOk(db: Db, id: string, a: Author) {
    var v := Replay(db.audit, id);
    if a.standing == Pending then a.revision == 1 && v.None? && forall n: nat :: CountNumber(db.audit, id, n) == 0
    else
      && v.Some? && a.revision == v.value.revision && a.standing == (if v.value.active then Active else Revoked)
      && v.value.key in db.keys && db.keys[v.value.key].author == id && db.keys[v.value.key].publicKey == a.publicKey
      && v.value.credential in db.credentials && db.credentials[v.value.credential].author == id
      && (forall n: nat :: CountNumber(db.audit, id, n) == if 1 <= n <= a.revision then 1 else 0)
  }

  /** Whether the audit says that a key is its author's current one. */
  predicate CurrentKey(audit: seq<Event>, author: string, fingerprint: string) {
    var v := Replay(audit, author); v.Some? && v.value.active && v.value.key == fingerprint
  }

  predicate CurrentCredential(audit: seq<Event>, author: string, id: string) {
    var v := Replay(audit, author); v.Some? && v.value.active && v.value.credential == id
  }

  ghost predicate KeyOk(db: Db, fingerprint: string, k: Key) {
    && k.author in db.authors
    && (k.standing == Revoked <==> k.revokedAt.Some?)
    && (k.standing == Active <==> CurrentKey(db.audit, k.author, fingerprint))
  }

  ghost predicate CredentialOk(db: Db, id: string, c: Credential) {
    && c.author in db.authors
    && (c.standing == Revoked <==> c.revokedAt.Some?)
    && (c.standing == Active <==> CurrentCredential(db.audit, c.author, id))
  }

  ghost predicate RowsOk(db: Db) {
    && (forall a | a in db.authors :: AuthorOk(db, a, db.authors[a]))
    && (forall f | f in db.keys :: KeyOk(db, f, db.keys[f]))
    && (forall c | c in db.credentials :: CredentialOk(db, c, db.credentials[c]))
  }

  /** The uniqueness constraints, and that a signing key belongs to one author across all tables. */
  ghost predicate UniqueOk(db: Db) {
    KeysUnique(db) && KeysOwned(db) && CredentialsUnique(db) && AuthorsUnique(db)
  }

  ghost predicate KeysUnique(db: Db) {
    forall f, g | f in db.keys && g in db.keys && db.keys[f].publicKey == db.keys[g].publicKey :: f == g
  }

  ghost predicate KeysOwned(db: Db) {
    forall f, a | f in db.keys && a in db.authors && db.keys[f].publicKey == db.authors[a].publicKey ::
        db.keys[f].author == a
  }

  ghost predicate CredentialsUnique(db: Db) {
    forall c, d | c in db.credentials && d in db.credentials &&
                  (db.credentials[c].lookup == db.credentials[d].lookup ||
                      db.credentials[c].hash == db.credentials[d].hash) :: c == d
  }

  ghost predicate AuthorsUnique(db: Db) {
    forall a, b | a in db.authors && b in db.authors && db.authors[a].publicKey == db.authors[b].publicKey :: a == b
  }

  predicate SameActorKey(a: Event, b: Event) {
    a.actor == b.actor && a.idempotencyKey == b.idempotencyKey
  }

  ghost predicate KeysOnce(audit: seq<Event>) {
    forall i, j | 0 <= i < j < |audit| :: !SameActorKey(audit[i], audit[j])
  }

  /** Every event belongs to an author whose row has reached its number. */
  ghost predicate EventsFollowed(db: Db) {
    forall e | e in db.audit ::
      e.author in db.authors && db.authors[e.author].standing != Pending && e.number <= db.authors[e.author].revision
  }

  ghost predicate Unheard(audit: seq<Event>, a: string) {
    Replay(audit, a).None? && forall n: nat :: CountNumber(audit, a, n) == 0
  }

  ghost predicate StrangersUnheard(db: Db) {
    forall a | a !in db.authors :: Unheard(db.audit, a)
  }

  ghost predicate AuditOk(db: Db) {
    EventsFollowed(db) && KeysOnce(db.audit) && StrangersUnheard(db)
  }

  /** Tables that agree with their audit; rows of an operation under way may still be pending. */
  ghost predicate Consistent(db: Db) {
    RowsOk(db) && UniqueOk(db) && AuditOk(db)
  }

  /** Committed tables: nothing is pending. */
  ghost predicate Settled(db: Db) {
    Consistent(db) && NothingPending(db)
  }

  ghost predicate NothingPending(db: Db) {
    && (forall a | a in db.authors :: db.authors[a].standing != Pending)
    && (forall f | f in db.keys :: db.keys[f].standing != Pending)
    && (forall c | c in db.credentials :: db.credentials[c].standing != Pending)
  }

  // ---------- the cascade ----------

  function KeySet(db: Db, f: string, to: Standing, at: Time): Db
    requires f in db.keys
  {
    db.(keys := db.keys[f := db.keys[f].(standing := to,
      revokedAt := if to == Revoked then Some(at) else db.keys[f].revokedAt)])
  }

  function CredentialSet(db: Db, c: string, to: Standing, at: Time): Db
    requires c in db.credentials
  {
    db.(credentials := db.credentials[c := db.credentials[c].(standing := to,
      revokedAt := if to == Revoked then Some(at) else db.credentials[c].revokedAt)])
  }

  /** The tables after a completed cascade, said directly. */
  function After(db: Db, e: Event): Db
    requires MetadataValid(e) && Owned(db, e) && (e.kind == AuthorRevoked ==> e.priorCredential.Some?)
  {
    var d := db.(audit := db.audit + [e]);
    var a := d.authors[e.author];
    match e.kind
    case Registered =>
      CredentialSet(KeySet(d, e.newKey.value, Active, e.at), e.newCredential.value, Active, e.at)
        .(authors := d.authors[e.author := a.(standing := Active)])
    case KeyRotated =>
      KeySet(KeySet(d, e.priorKey.value, Revoked, e.at), e.newKey.value, Active, e.at)
        .(authors := d.authors[e.author := a.(publicKey := d.keys[e.newKey.value].publicKey, revision := e.number)])
    case CredentialRotated =>
      CredentialSet(CredentialSet(d, e.priorCredential.value, Revoked, e.at), e.newCredential.value, Active, e.at)
        .(authors := d.authors[e.author := a.(revision := e.number)])
    case AuthorRevoked =>
      CredentialSet(KeySet(d, e.priorKey.value, Revoked, e.at), e.priorCredential.value, Revoked, e.at)
        .(authors := d.authors[e.author := a.(standing := Revoked, revision := e.number)])
  }

  /** An active author always has an active credential, so a revocation names one. */
  lemma RevocationNamesCredential(db: Db, e: Event)
    requires Consistent(db) && MetadataValid(e) && Owned(db, e) && e.kind == AuthorRevoked
    ensures e.priorCredential.Some?
  {
    assert AuthorOk(db, e.author, db.authors[e.author]);
    var c := Replay(db.audit, e.author).value.credential;
    assert CredentialOk(db, c, db.credentials[c]);
  }

  lemma ActiveMeansCurrent(db: Db, author: string)
    requires RowsOk(db)
    ensures forall f | f in db.keys && db.keys[f].author == author :: db.keys[f].standing == Active <==>
              CurrentKey(db.audit, author, f)
    ensures forall c | c in db.credentials && db.credentials[c].author == author ::
              db.credentials[c].standing == Active <==> CurrentCredential(db.audit, author, c)
  {
    forall f | f in db.keys && db.keys[f].author == author
      ensures db.keys[f].standing == Active <==> CurrentKey(db.audit, author, f)
    {
      assert KeyOk(db, f, db.keys[f]);
    }
    forall c | c in db.credentials && db.credentials[c].author == author
      ensures db.credentials[c].standing == Active <==> CurrentCredential(db.audit, author, c)
    {
      assert CredentialOk(db, c, db.credentials[c]);
    }
  }

  // ---------- single updates that are justified by the event ----------

  predicate SoleActiveKey(d: Db, author: string, f: string) {
    forall g | g in d.keys && d.keys[g].author == author && d.keys[g].standing == Active :: g == f
  }

  predicate SoleActiveCredential(d: Db, author: string, c: string) {
    forall o | o in d.credentials && d.credentials[o].author == author && d.credentials[o].standing == Active :: o == c
  }

  lemma KeyMoves(d: Db, e: Event, f: string, to: Standing)
    requires e in d.audit && f in d.keys && d.keys[f].author == e.author && d.keys[f].revokedAt.None?
    requires (d.keys[f].standing == Pending && to == Active) || (d.keys[f].standing == Active && to == Revoked)
    requires JustifiesKey(d, e, e.author, f, to) && (to == Active ==> SoleActiveKey(d, e.author, f))
    ensures SetKey(d, e.author, Some(f), to, e.at) == Ok(KeySet(d, f, to, e.at))
  {
  }

  lemma CredentialMoves(d: Db, e: Event, c: string, to: Standing)
    requires e in d.audit && c in d.credentials && d.credentials[c].author == e.author &&
               d.credentials[c].revokedAt.None?
    requires (d.credentials[c].standing == Pending && to == Active) ||
               (d.credentials[c].standing == Active && to == Revoked)
    requires JustifiesCredential(d, e, e.author, c, to) && (to == Active ==> SoleActiveCredential(d, e.author, c))
    ensures SetCredential(d, e.author, Some(c), to, e.at) == Ok(CredentialSet(d, c, to, e.at))
  {
  }

  /** The author's row after the event. */
  function AuthorAfter(d: Db, e: Event): Author
    requires e.author in d.authors
  {
    var a := d.authors[e.author];
    match e.kind
    case Registered => a.(standing := Active)
    case KeyRotated =>
      a.(publicKey := if e.newKey.Some? && e.newKey.value in d.keys then d.keys[e.newKey.value].publicKey else "",
         revision := e.number)
    case CredentialRotated => a.(revision := e.number)
    case AuthorRevoked => a.(standing := Revoked, revision := e.number)
  }

  lemma AuthorMoves(d: Db, e: Event)
    requires e in d.audit && e.author in d.authors
    requires var a := d.authors[e.author];
             if e.kind == Registered then a.standing == Pending && a.revision == 1 == e.number
             else a.standing == Active && a.revision + 1 == e.number
    requires JustifiesAuthor(d, e, e.author, d.authors[e.author], AuthorAfter(d, e))
    requires forall o | o in d.authors && o != e.author :: d.authors[o].publicKey != AuthorAfter(d, e).publicKey
    requires e.kind == KeyRotated ==>
               HasKey(d, e.author, AuthorAfter(d, e).publicKey, None, Active) &&
                   HasKey(d, e.author, d.authors[e.author].publicKey, None, Revoked)
    ensures SetAuthor(d, e) == Ok(d.(authors := d.authors[e.author := AuthorAfter(d, e)]))
  {
  }

  /** What consistent tables say of the rows that an event names. */
  ghost predicate NamedRowsOk(db: Db, e: Event) {
    && (e.priorKey.Some? && e.priorKey.value in db.keys ==> KeyOk(db, e.priorKey.value, db.keys[e.priorKey.value]))
    && (e.newKey.Some? && e.newKey.value in db.keys ==> KeyOk(db, e.newKey.value, db.keys[e.newKey.value]))
    && (e.priorCredential.Some? && e.priorCredential.value in db.credentials ==>
          CredentialOk(db, e.priorCredential.value, db.credentials[e.priorCredential.value]))
    && (e.newCredential.Some? && e.newCredential.value in db.credentials ==>
          CredentialOk(db, e.newCredential.value, db.credentials[e.newCredential.value]))
  }

  /** The active rows of the author are exactly its current ones. */
  ghost predicate ActiveAreCurrent(db: Db, author: string) {
    && (forall f | f in db.keys && db.keys[f].author == author :: db.keys[f].standing == Active <==>
          CurrentKey(db.audit, author, f))
    && (forall c | c in db.credentials && db.credentials[c].author == author ::
          db.credentials[c].standing == Active <==> CurrentCredential(db.audit, author, c))
  }

  /** No other author has the public key of one of the author's rows. */
  ghost predicate KeysApart(db: Db, author: string) {
    forall f, o | f in db.keys && db.keys[f].author == author && o in db.authors && o != author ::
        db.authors[o].publicKey != db.keys[f].publicKey
  }

  /** All that a cascade needs to know about the tables it starts from. */
  ghost predicate Ready(db: Db, e: Event) {
    && MetadataValid(e) && Owned(db, e) && NamedRowsOk(db, e) && ActiveAreCurrent(db, e.author) &&
          KeysApart(db, e.author)
    && (forall o | o in db.authors && o != e.author :: db.authors[o].publicKey != db.authors[e.author].publicKey)
    && AuthorOk(db, e.author, db.authors[e.author])
  }

  lemma ConsistentIsReady(db: Db, e: Event)
    requires Consistent(db) && MetadataValid(e) && Owned(db, e)
    ensures Ready(db, e)
  {
    ActiveMeansCurrent(db, e.author);
  }

  lemma RegistrationCompletes(db: Db, e: Event)
    requires Ready(db, e) && e.kind == Registered
    ensures Cascade(db.(audit := db.audit + [e]), e) == Ok(After(db, e))
  {
    var d := db.(audit := db.audit + [e]);
    var f, c := e.newKey.value, e.newCredential.value;
    assert e in d.audit;
    KeyMoves(d, e, f, Active);
    var d1 := KeySet(d, f, Active, e.at);
    CredentialMoves(d1, e, c, Active);
    var d2 := CredentialSet(d1, c, Active, e.at);
    assert HasKey(d2, e.author, d2.authors[e.author].publicKey, e.newKey, Active) by {
      assert d2.keys[f].publicKey == d2.authors[e.author].publicKey;
    }
    AuthorMoves(d2, e);
  }

  lemma KeyRotationCompletes(db: Db, e: Event)
    requires Ready(db, e) && e.kind == KeyRotated
    ensures Cascade(db.(audit := db.audit + [e]), e) == Ok(After(db, e))
  {
    var d := db.(audit := db.audit + [e]);
    var f, g := e.priorKey.value, e.newKey.value;
    assert e in d.audit;
    KeyMoves(d, e, f, Revoked);
    var d1 := KeySet(d, f, Revoked, e.at);
    KeyMoves(d1, e, g, Active);
    var d2 := KeySet(d1, g, Active, e.at);
    KeysFollow(db, e, d2);
    AuthorMoves(d2, e);
  }

  /** After both keys of a rotation have moved, the author row may follow. */
  lemma KeysFollow(db: Db, e: Event, d2: Db)
    requires Ready(db, e) && e.kind == KeyRotated
    requires d2 == KeySet(KeySet(db.(audit := db.audit + [e]), e.priorKey.value, Revoked, e.at), e.newKey.value,
               Active, e.at)
    ensures JustifiesAuthor(d2, e, e.author, d2.authors[e.author], AuthorAfter(d2, e))
    ensures HasKey(d2, e.author, AuthorAfter(d2, e).publicKey, None, Active)
    ensures HasKey(d2, e.author, d2.authors[e.author].publicKey, None, Revoked)
  {
    var f, g := e.priorKey.value, e.newKey.value;
    assert d2.keys[f].publicKey == d2.authors[e.author].publicKey && d2.keys[f].standing == Revoked;
    assert d2.keys[g].publicKey == AuthorAfter(d2, e).publicKey && d2.keys[g].standing == Active;
  }

  lemma CredentialRotationCompletes(db: Db, e: Event)
    requires Ready(db, e) && e.kind == CredentialRotated
    ensures Cascade(db.(audit := db.audit + [e]), e) == Ok(After(db, e))
  {
    var d := db.(audit := db.audit + [e]);
    var b, c := e.priorCredential.value, e.newCredential.value;
    assert e in d.audit;
    CredentialMoves(d, e, b, Revoked);
    var d1 := CredentialSet(d, b, Revoked, e.at);
    CredentialMoves(d1, e, c, Active);
    AuthorMoves(CredentialSet(d1, c, Active, e.at), e);
  }

  lemma RevocationCompletes(db: Db, e: Event)
    requires Ready(db, e) && e.kind == AuthorRevoked && e.priorCredential.Some?
    ensures Cascade(db.(audit := db.audit + [e]), e) == Ok(After(db, e))
  {
    var d := db.(audit := db.audit + [e]);
    var f, c := e.priorKey.value, e.priorCredential.value;
    assert e in d.audit;
    assert HasCredential(db, e.author, e.priorCredential, Active) by {
      PriorCredentialIsActive(db, e);
    }
    KeyMoves(d, e, f, Revoked);
    var d1 := KeySet(d, f, Revoked, e.at);
    CredentialMoves(d1, e, c, Revoked);
    AuthorMoves(CredentialSet(d1, c, Revoked, e.at), e);
  }

  lemma PriorCredentialIsActive(db: Db, e: Event)
    requires Ready(db, e) && e.kind == AuthorRevoked && e.priorCredential.Some?
    ensures HasCredential(db, e.author, e.priorCredential, Active)
  {
  }

  /** No cascade is left half done. On tables that agree with their audit, a row is rejected only for a used
      idempotency key, a used number, malformed metadata or a failed ownership check; once it is accepted, each of
      its guarded updates commits, with exactly the intended result. */
  lemma {:induction false} CascadesComplete(db: Db, e: Event)
    requires Consistent(db)
    ensures InsertEvent(db, e).Ok? <==>
              ActorKeyUnused(db.audit, e.actor, e.idempotencyKey) && NumberUnused(db.audit, e.author, e.number) &&
                  MetadataValid(e) && Owned(db, e)
    ensures InsertEvent(db, e).Ok? ==>
              (e.kind == AuthorRevoked ==> e.priorCredential.Some?) && InsertEvent(db, e).value == After(db, e)
    ensures InsertEvent(db, e) != Err(CascadeAborted)
  {
    if MetadataValid(e) && Owned(db, e) {
      ConsistentIsReady(db, e);
      match e.kind
      case Registered => RegistrationCompletes(db, e);
      case KeyRotated => KeyRotationCompletes(db, e);
      case CredentialRotated => CredentialRotationCompletes(db, e);
      case AuthorRevoked =>
        RevocationNamesCredential(db, e);
        RevocationCompletes(db, e);
    }
  }

  // ---------- the cascade keeps the tables consistent ----------

  /** An event the cascade accepts. */
  ghost predicate Accepted(db: Db, e: Event) {
    && Consistent(db) && MetadataValid(e) && Owned(db, e) && (e.kind == AuthorRevoked ==> e.priorCredential.Some?)
    && ActorKeyUnused(db.audit, e.actor, e.idempotencyKey)
  }

  /** An event continues the replay of its author: a registration starts it, any other event names what is current. */
  ghost predicate Continues(db: Db, e: Event) {
    var v := Replay(db.audit, e.author);
    && (e.kind == Registered <==> v.None?)
    && (v.Some? ==>
          && v.value.active && e.number == v.value.revision + 1
          && (e.priorKey.Some? ==> e.priorKey.value == v.value.key)
          && (e.priorCredential.Some? ==> e.priorCredential.value == v.value.credential))
  }

  lemma ReadyContinues(db: Db, e: Event)
    requires Ready(db, e)
    ensures Continues(db, e)
  {
  }

  lemma AcceptedReplay(db: Db, e: Event)
    requires Accepted(db, e)
    ensures Continues(db, e)
  {
    ConsistentIsReady(db, e);
    ReadyContinues(db, e);
  }

  /** Where an event moves one key or credential. */
  function MovedTo(o: Standing, prior: bool, new_: bool): Standing {
    if new_ then Active else if prior then Revoked else o
  }

  ghost predicate KeysMoved(db: Db, after: Db, e: Event) {
    && after.keys.Keys == db.keys.Keys
    && (forall f | f in db.keys ::
          && after.keys[f].author == db.keys[f].author && after.keys[f].publicKey == db.keys[f].publicKey
          && after.keys[f].standing == MovedTo(db.keys[f].standing, e.priorKey == Some(f), e.newKey == Some(f))
          && (after.keys[f].standing == db.keys[f].standing ==> after.keys[f].revokedAt == db.keys[f].revokedAt)
          && (after.keys[f].standing != db.keys[f].standing ==>
                (after.keys[f].standing == Revoked <==> after.keys[f].revokedAt.Some?)))
  }

  ghost predicate CredentialsMoved(db: Db, after: Db, e: Event) {
    && after.credentials.Keys == db.credentials.Keys
    && (forall c | c in db.credentials ::
          && after.credentials[c].author == db.credentials[c].author
          && after.credentials[c].lookup == db.credentials[c].lookup &&
                after.credentials[c].hash == db.credentials[c].hash
          && after.credentials[c].expires == db.credentials[c].expires
          && after.credentials[c].standing ==
             MovedTo(db.credentials[c].standing, e.priorCredential == Some(c), e.newCredential == Some(c))
          && (after.credentials[c].standing == db.credentials[c].standing ==>
                after.credentials[c].revokedAt == db.credentials[c].revokedAt)
          && (after.credentials[c].standing != db.credentials[c].standing ==>
                (after.credentials[c].standing == Revoked <==> after.credentials[c].revokedAt.Some?)))
  }

  ghost predicate AuthorsMoved(db: Db, after: Db, e: Event) {
    && after.authors.Keys == db.authors.Keys && e.author in db.authors
    && (forall a | a in db.authors && a != e.author :: after.authors[a] == db.authors[a])
    && var n := after.authors[e.author];
       && n.standing == (if e.kind == AuthorRevoked then Revoked else Active)
       && n.revision == e.number
       && n.publicKey == (if e.kind == KeyRotated && e.newKey.Some? &&
             e.newKey.value in db.keys then db.keys[e.newKey.value].publicKey
                          else db.authors[e.author].publicKey)
  }

  /** The same result, row by row: keys and credentials keep everything but their standing, which changes only where
      the event says so, and only the author's own row changes. */
  ghost predicate Moved(db: Db, after: Db, e: Event) {
    after.audit == db.audit + [e] && KeysMoved(db, after, e) && CredentialsMoved(db, after, e) &&
        AuthorsMoved(db, after, e)
  }

  lemma KeysMove(db: Db, e: Event)
    requires MetadataValid(e) && Owned(db, e) && (e.kind == AuthorRevoked ==> e.priorCredential.Some?)
    requires e.newKey.Some? && e.newKey.value in db.keys ==> db.keys[e.newKey.value].revokedAt.None?
    ensures KeysMoved(db, After(db, e), e)
  {
  }

  lemma CredentialsMove(db: Db, e: Event)
    requires MetadataValid(e) && Owned(db, e) && (e.kind == AuthorRevoked ==> e.priorCredential.Some?)
    requires e.newCredential.Some? && e.newCredential.value in db.credentials ==>
               db.credentials[e.newCredential.value].revokedAt.None?
    ensures CredentialsMoved(db, After(db, e), e)
  {
  }

  lemma AuthorsMove(db: Db, e: Event)
    requires MetadataValid(e) && Owned(db, e) && (e.kind == AuthorRevoked ==> e.priorCredential.Some?)
    ensures AuthorsMoved(db, After(db, e), e)
  {
  }

  lemma AfterMoves(db: Db, e: Event)
    requires Accepted(db, e)
    ensures Moved(db, After(db, e), e)
  {
    assert e.newKey.Some? ==> KeyOk(db, e.newKey.value, db.keys[e.newKey.value]);
    assert e.newCredential.Some? ==> CredentialOk(db, e.newCredential.value, db.credentials[e.newCredential.value]);
    KeysMove(db, e);
    CredentialsMove(db, e);
    AuthorsMove(db, e);
  }

  /** What the event says about the author's rows before it. */
  ghost predicate Fits(db: Db, e: Event) {
    && MetadataValid(e)
    && (e.priorKey.Some? ==> KeyIs(db, e.author, e.priorKey, Active))
    && (e.newKey.Some? ==> KeyIs(db, e.author, e.newKey, Pending))
    && (e.priorCredential.Some? ==> HasCredential(db, e.author, e.priorCredential, Active))
    && (e.newCredential.Some? ==> HasCredential(db, e.author, e.newCredential, Pending))
    && (e.kind == AuthorRevoked ==> e.priorCredential.Some?)
    && var v := Replay(db.audit, e.author);
       && (e.kind == Registered ==> v.None? && e.number == 1)
       && (e.kind != Registered ==>
             && v.Some? && v.value.active && e.number == v.value.revision + 1
             && (e.priorKey.Some? ==> e.priorKey.value == v.value.key)
             && (e.priorCredential.Some? ==> e.priorCredential.value == v.value.credential))
  }

  lemma AcceptedFits(db: Db, e: Event)
    requires Accepted(db, e)
    ensures Fits(db, e)
  {
    AcceptedReplay(db, e);
  }

  lemma MovedKeyOk(db: Db, after: Db, e: Event, f: string)
    requires Moved(db, after, e) && Fits(db, e) && f in db.keys && KeyOk(db, f, db.keys[f])
    ensures KeyOk(after, f, after.keys[f])
  {
    ReplayAppended(db.audit, e, db.keys[f].author);
  }

  lemma MovedCredentialOk(db: Db, after: Db, e: Event, c: string)
    requires Moved(db, after, e) && Fits(db, e) && c in db.credentials && CredentialOk(db, c, db.credentials[c])
    ensures CredentialOk(after, c, after.credentials[c])
  {
    ReplayAppended(db.audit, e, db.credentials[c].author);
  }

  lemma MovedAuthorOk(db: Db, after: Db, e: Event, a: string)
    requires Moved(db, after, e) && Fits(db, e) && a in db.authors && AuthorOk(db, a, db.authors[a])
    requires a == e.author && e.kind == Registered ==>
               db.authors[a].standing == Pending && db.keys[e.newKey.value].publicKey == db.authors[a].publicKey
    ensures AuthorOk(after, a, after.authors[a])
  {
    ReplayAppended(db.audit, e, a);
  }

  lemma MovedRowsOk(db: Db, after: Db, e: Event)
    requires RowsOk(db) && Moved(db, after, e) && Fits(db, e) && Owned(db, e)
    ensures RowsOk(after)
  {
    forall a | a in after.authors
      ensures AuthorOk(after, a, after.authors[a])
    {
      assert AuthorOk(db, a, db.authors[a]);
      MovedAuthorOk(db, after, e, a);
    }
    forall f | f in after.keys
      ensures KeyOk(after, f, after.keys[f])
    {
      assert KeyOk(db, f, db.keys[f]);
      MovedKeyOk(db, after, e, f);
    }
    forall c | c in after.credentials
      ensures CredentialOk(after, c, after.credentials[c])
    {
      assert CredentialOk(db, c, db.credentials[c]);
      MovedCredentialOk(db, after, e, c);
    }
  }

  lemma MovedKeysUnique(db: Db, after: Db, e: Event)
    requires KeysUnique(db) && KeysMoved(db, after, e)
    ensures KeysUnique(after)
  {
  }

  lemma MovedCredentialsUnique(db: Db, after: Db, e: Event)
    requires CredentialsUnique(db) && CredentialsMoved(db, after, e)
    ensures CredentialsUnique(after)
  {
  }

  /** The author's new public key, if any, is that of one of its own rows. */
  lemma MovedKeysOwned(db: Db, after: Db, e: Event)
    requires KeysUnique(db) && KeysOwned(db) && AuthorsUnique(db)
    requires KeysMoved(db, after, e) && AuthorsMoved(db, after, e) && Fits(db, e)
    ensures KeysOwned(after) && AuthorsUnique(after)
  {
  }

  lemma MovedUniqueOk(db: Db, after: Db, e: Event)
    requires UniqueOk(db) && Moved(db, after, e) && Fits(db, e)
    ensures UniqueOk(after)
  {
    MovedKeysUnique(db, after, e);
    MovedCredentialsUnique(db, after, e);
    MovedKeysOwned(db, after, e);
  }

  lemma MovedEvents(db: Db, after: Db, e: Event)
    requires EventsFollowed(db) && Moved(db, after, e) && Fits(db, e)
    requires AuthorOk(db, e.author, db.authors[e.author])
    ensures EventsFollowed(after)
  {
  }

  lemma MovedStrangers(db: Db, after: Db, e: Event)
    requires StrangersUnheard(db) && Moved(db, after, e)
    ensures StrangersUnheard(after)
  {
    forall a | a !in after.authors
      ensures Unheard(after.audit, a)
    {
      assert Unheard(db.audit, a);
      ReplayAppended(db.audit, e, a);
    }
  }

  lemma AddedKeysOnce(audit: seq<Event>, e: Event)
    requires KeysOnce(audit) && ActorKeyUnused(audit, e.actor, e.idempotencyKey)
    ensures KeysOnce(audit + [e])
  {
    var more := audit + [e];
    forall i, j | 0 <= i < j < |more|
      ensures !SameActorKey(more[i], more[j])
    {
      assert more[i] in audit;
      assert j < |audit| ==> !SameActorKey(audit[i], audit[j]);
    }
  }

  lemma MovedAuditOk(db: Db, after: Db, e: Event)
    requires AuditOk(db) && Moved(db, after, e) && Fits(db, e) && ActorKeyUnused(db.audit, e.actor, e.idempotencyKey)
    requires AuthorOk(db, e.author, db.authors[e.author])
    ensures AuditOk(after)
  {
    MovedEvents(db, after, e);
    MovedStrangers(db, after, e);
    AddedKeysOnce(db.audit, e);
  }

  lemma {:induction false} InsertKeepsConsistent(db: Db, e: Event)
    requires Consistent(db) && InsertEvent(db, e).Ok?
    ensures Accepted(db, e) && InsertEvent(db, e).value == After(db, e) && Consistent(After(db, e)) &&
              Moved(db, After(db, e), e)
  {
    CascadesComplete(db, e);
    AfterMoves(db, e);
    AcceptedFits(db, e);
    assert AuthorOk(db, e.author, db.authors[e.author]);
    MovedRowsOk(db, After(db, e), e);
    MovedUniqueOk(db, After(db, e), e);
    MovedAuditOk(db, After(db, e), e);
  }
}
