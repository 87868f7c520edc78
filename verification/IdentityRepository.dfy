/** The identity repository as an object whose tables change in place, and the service on top of it. Each repository
    method runs one transaction; any error rolls it back. */
module IdentityRepository {
  import opened Wrappers
  import opened IdentityTables
  import opened IdentityLifecycle
  import opened IdentityService
  import opened IdentityReference

  /** One transaction: the specified tables, or the old ones and the specified error. */
  predicate Transacts(spec: Result<Db, IdentityError>, before: Db, after: Db, r: Result<(), IdentityError>) {
    if spec.Ok? then r.Ok? && after == spec.value else r == Err(spec.error) && after == before
  }

  lemma KeyRotationInserts(
      db: Db, author: string, publicKey: string, fingerprint: string, expected: nat, q: Request, current: string)
    requires author in db.authors && db.authors[author].standing == Active && db.authors[author].revision == expected
    requires ActiveKey(db, author) == Some(current) && current != fingerprint &&
               KeyInsertable(db, publicKey, fingerprint)
    ensures RotateKey(db, author, publicKey, fingerprint, expected, q) ==
            InsertEvent(WithKey(db, author, publicKey, fingerprint), KeyEvent(db, author, current, fingerprint, q))
  {
  }

  lemma CredentialRotationInserts(db: Db, author: string, i: Issue, expected: nat, q: Request, current: string)
    requires author in db.authors && db.authors[author].standing == Active && db.authors[author].revision == expected
    requires ActiveCredential(db, author) == Some(current) && CredentialInsertable(db, i.id, i.lookup, i.hash)
    ensures RotateCredential(db, author, i, expected, q) ==
            InsertEvent(WithCredential(db, author, i), CredentialEvent(db, author, current, i.id, q))
  {
  }

  class AuthorIdentityRepository {
    var authors: map<string, Author>
    var keys: map<string, Key>
    var credentials: map<string, Credential>
    var audit: seq<Event>

    function Tables(): Db
      reads this
    {
      Db(authors, keys, credentials, audit)
    }

    constructor ()
      ensures Tables() == EMPTY
    {
      authors, keys, credentials, audit := map[], map[], map[], [];
    }

    method Restore(saved: Db)
      modifies this
      ensures Tables() == saved
    {
      authors, keys, credentials, audit := saved.authors, saved.keys, saved.credentials, saved.audit;
    }

    method UpdateKey(author: string, fingerprint: Option<string>, to: Standing, at: Time)
        returns (r: Result<(), IdentityError>)
      modifies this`keys
      ensures Transacts(SetKey(old(Tables()), author, fingerprint, to, at), old(Tables()), Tables(), r)
    {
      if fingerprint.None? || fingerprint.value !in keys {
        return Err(CascadeAborted);
      }
      var before := keys[fingerprint.value];
      var updated := before.(standing := to, revokedAt := if to == Revoked then Some(at) else before.revokedAt);
      if before.author != author || before.standing != (if to == Active then Pending else Active) ||
         !KeyUpdateAllowed(Tables(), fingerprint.value, updated) {
        return Err(CascadeAborted);
      }
      keys := keys[fingerprint.value := updated];
      return Ok(());
    }

    method UpdateCredential(author: string, id: Option<string>, to: Standing, at: Time)
        returns (r: Result<(), IdentityError>)
      modifies this`credentials
      ensures Transacts(SetCredential(old(Tables()), author, id, to, at), old(Tables()), Tables(), r)
    {
      if id.None? || id.value !in credentials {
        return Err(CascadeAborted);
      }
      var before := credentials[id.value];
      var updated := before.(standing := to, revokedAt := if to == Revoked then Some(at) else before.revokedAt);
      if before.author != author || before.standing != (if to == Active then Pending else Active) ||
         !CredentialUpdateAllowed(Tables(), id.value, updated) {
        return Err(CascadeAborted);
      }
      credentials := credentials[id.value := updated];
      return Ok(());
    }

    method UpdateAuthor(e: Event) returns (r: Result<(), IdentityError>)
      modifies this`authors
      ensures Transacts(SetAuthor(old(Tables()), e), old(Tables()), Tables(), r)
    {
      if e.author !in authors {
        return Err(CascadeAborted);
      }
      var before := authors[e.author];
      if e.kind == Registered && (before.standing != Pending || before.revision != 1) {
        return Err(CascadeAborted);
      }
      if e.kind != Registered && (before.standing != Active || before.revision + 1 != e.number) {
        return Err(CascadeAborted);
      }
      var updated := before;
      match e.kind {
        case Registered => updated := updated.(standing := Active);
        case KeyRotated =>
          var found := e.newKey.Some? && e.newKey.value in keys;
          updated := updated.(publicKey := if found then keys[e.newKey.value].publicKey else "", revision := e.number);
        case CredentialRotated => updated := updated.(revision := e.number);
        case AuthorRevoked => updated := updated.(standing := Revoked, revision := e.number);
      }
      if !AuthorUpdateAllowed(Tables(), e.author, updated, e.kind in {Registered, AuthorRevoked},
          e.kind == KeyRotated, e.kind != Registered) {
        return Err(CascadeAborted);
      }
      authors := authors[e.author := updated];
      return Ok(());
    }

    /** The updates an inserted audit row sets off, one after the other; the caller rolls back. */
    method Apply(e: Event) returns (r: Result<(), IdentityError>)
      modifies this
      ensures var spec := Cascade(old(Tables()), e);
                if spec.Ok? then r.Ok? && Tables() == spec.value else r == Err(spec.error)
    {
      match e.kind {
        case Registered =>
          r := UpdateKey(e.author, e.newKey, Active, e.at);
          if r.Ok? {
            r := UpdateCredential(e.author, e.newCredential, Active, e.at);
          }
        case KeyRotated =>
          r := UpdateKey(e.author, e.priorKey, Revoked, e.at);
          if r.Ok? {
            r := UpdateKey(e.author, e.newKey, Active, e.at);
          }
        case CredentialRotated =>
          r := UpdateCredential(e.author, e.priorCredential, Revoked, e.at);
          if r.Ok? {
            r := UpdateCredential(e.author, e.newCredential, Active, e.at);
          }
        case AuthorRevoked =>
          r := UpdateKey(e.author, e.priorKey, Revoked, e.at);
          if r.Ok? && e.priorCredential.Some? {
            r := UpdateCredential(e.author, e.priorCredential, Revoked, e.at);
          }
      }
      if r.Ok? {
        r := UpdateAuthor(e);
      }
    }

    method InsertAudit(e: Event, saved: Db) returns (r: Result<(), IdentityError>)
      modifies this
      ensures Transacts(InsertEvent(old(Tables()), e), saved, Tables(), r)
    {
      if !ActorKeyUnused(audit, e.actor, e.idempotencyKey) {
        r := Err(KeyReused);
      } else if !NumberUnused(audit, e.author, e.number) {
        r := Err(Duplicate);
      } else if !MetadataValid(e) || !Owned(Tables(), e) {
        r := Err(NotOwned);
      } else {
        audit := audit + [e];
        r := Apply(e);
      }
      if r.Err? {
        Restore(saved);
      }
    }

    method Register(n: Registration, q: Request) returns (r: Result<(), IdentityError>)
      requires Settled(Tables())
      modifies this
      ensures Transacts(RegisterAuthor(old(Tables()), n, q), old(Tables()), Tables(), r)
    {
      if !AuthorInsertable(Tables(), n) || !KeyInsertable(Tables(), n.publicKey, n.fingerprint) ||
         !CredentialInsertable(Tables(), n.credential, n.lookup, n.hash) {
        return Err(Duplicate);
      }
      var saved := Tables();
      authors := authors[n.id := Author(n.subject, n.handle, n.publicKey, Pending, 1)];
      keys := keys[n.fingerprint := Key(n.id, n.publicKey, Pending, None)];
      credentials := credentials[n.credential := Credential(n.id, n.lookup, n.hash, n.expires, Pending, None)];
      assert Tables() == WithRegistration(saved, n);
      r := InsertAudit(RegistrationEvent(n, q), saved);
    }

    /** The one active key of an active author. */
    method FindActiveKey(author: string) returns (f: string)
      requires Settled(Tables()) && author in authors && authors[author].standing == Active
      ensures ActiveKey(Tables(), author) == Some(f) && f in keys && CurrentKey(audit, author, f)
    {
      SettledAuthor(Tables(), author);
      ActiveMeansCurrent(Tables(), author);
      f :| f in keys && keys[f].author == author && keys[f].standing == Active;
    }

    method FindActiveCredential(author: string) returns (c: Option<string>)
      requires Settled(Tables()) && author in authors && authors[author].standing == Active
      ensures ActiveCredential(Tables(), author) == c && c.Some? && CurrentCredential(audit, author, c.value)
    {
      SettledAuthor(Tables(), author);
      ActiveMeansCurrent(Tables(), author);
      var id :| id in credentials && credentials[id].author == author && credentials[id].standing == Active;
      c := Some(id);
    }

    method RotateAuthorKey(author: string, publicKey: string, fingerprint: string, expected: nat, q: Request)
      returns (r: Result<(), IdentityError>)
      requires Settled(Tables())
      modifies this
      ensures Transacts(RotateKey(old(Tables()), author, publicKey, fingerprint, expected, q), old(Tables()), Tables(),
                r)
    {
      if author !in authors {
        return Err(NotFound);
      }
      if authors[author].standing != Active || authors[author].revision != expected {
        return Err(InvalidTransition);
      }
      var current := FindActiveKey(author);
      if current == fingerprint {
        return Err(InvalidTransition);
      }
      if !KeyInsertable(Tables(), publicKey, fingerprint) {
        return Err(Duplicate);
      }
      var saved := Tables();
      KeyRotationInserts(saved, author, publicKey, fingerprint, expected, q, current);
      keys := keys[fingerprint := Key(author, publicKey, Pending, None)];
      r := InsertAudit(KeyEvent(saved, author, current, fingerprint, q), saved);
    }

    method RotateAuthorCredential(author: string, i: Issue, expected: nat, q: Request)
        returns (r: Result<(), IdentityError>)
      requires Settled(Tables())
      modifies this
      ensures Transacts(RotateCredential(old(Tables()), author, i, expected, q), old(Tables()), Tables(), r)
    {
      if author !in authors {
        return Err(NotFound);
      }
      if authors[author].standing != Active || authors[author].revision != expected {
        return Err(InvalidTransition);
      }
      var current := FindActiveCredential(author);
      if !CredentialInsertable(Tables(), i.id, i.lookup, i.hash) {
        return Err(Duplicate);
      }
      var saved := Tables();
      CredentialRotationInserts(saved, author, i, expected, q, current.value);
      credentials := credentials[i.id := Credential(author, i.lookup, i.hash, i.expires, Pending, None)];
      r := InsertAudit(CredentialEvent(saved, author, current.value, i.id, q), saved);
    }

    method Revoke(author: string, q: Request) returns (r: Result<(), IdentityError>)
      requires Settled(Tables())
      modifies this
      ensures Transacts(RevokeAuthor(old(Tables()), author, q), old(Tables()), Tables(), r)
    {
      if author !in authors {
        return Err(NotFound);
      }
      if authors[author].standing != Active {
        return Err(InvalidTransition);
      }
      var key := FindActiveKey(author);
      var credential := FindActiveCredential(author);
      r := InsertAudit(RevocationEvent(Tables(), author, key, credential, q), Tables());
    }

    method FindAuthenticationRecord(lookup: string) returns (c: Option<string>)
      requires Settled(Tables())
      ensures c == Found(Tables(), lookup)
    {
      if id :| id in credentials && credentials[id].lookup == lookup {
        c := Some(id);
      } else {
        c := None;
      }
    }
  }

  lemma HistoryContinues(digest: Token -> string, ops: seq<Operation>, op: Operation, after: Db,
      r: Result<(), IdentityError>)
    requires Transacts(Attempt(digest, Run(digest, START, ops).db, op), Run(digest, START, ops).db, after, r)
    ensures after == Run(digest, START, ops + [op]).db && r == Verdict(digest, ops, op)
  {
    AttemptsEndAsForetold(digest, ops, op);
    assert r.Ok? ==> r.value == ();
    assert (ops + [op])[..|ops + [op]| - 1] == ops;
  }

  /** The service: it issues tokens, and stores only their digests. `history` is every operation that reached the
      repository. */
  class AuthorIdentityService {
    const repository: AuthorIdentityRepository
    const digest: Token -> string
    const ttl: nat
    ghost var history: seq<Operation>

    ghost predicate Valid()
      reads this, repository
    {
      repository.Tables() == Run(digest, START, history).db
    }

    constructor (digest: Token -> string, ttl: nat)
      ensures Valid() && history == [] && fresh(repository) && this.digest == digest && this.ttl == ttl
    {
      repository := new AuthorIdentityRepository();
      this.digest, this.ttl, history := digest, ttl, [];
    }

    method Register(id: string, subject: string, handle: string, publicKey: string, fingerprint: string,
                    credential: string, token: Token, q: Request) returns (r: Result<(), IdentityError>, expires: Time)
      requires Valid()
      modifies repository, this`history
      ensures Valid() && expires == q.at + ttl as real
      ensures var op := Operation.Register(id, subject, handle, publicKey, fingerprint, credential, token, expires, q);
              history == old(history) + [op] && r == Verdict(digest, old(history), op) &&
                  Transacts(Attempt(digest, old(repository.Tables()), op), old(repository.Tables()),
                  repository.Tables(), r)
    {
      expires := q.at + ttl as real;
      RunSettled(digest, history);
      var n := Registration(id, subject, handle, publicKey, fingerprint, credential, token.lookup, digest(token),
          expires);
      r := repository.Register(n, q);
      ghost var op := Operation.Register(id, subject, handle, publicKey, fingerprint, credential, token, expires, q);
      HistoryContinues(digest, history, op, repository.Tables(), r);
      history := history + [op];
    }

    method ReplaceKey(author: string, publicKey: string, fingerprint: string, expected: int, q: Request)
        returns (r: Result<(), IdentityError>)
      requires Valid()
      modifies repository, this`history
      ensures Valid()
      ensures expected < 1 ==>
                r == Err(InvalidIdentity) && history == old(history) && repository.Tables() == old(repository.Tables())
      ensures expected >= 1 ==>
                var op := Operation.ReplaceKey(author, publicKey, fingerprint, expected, q);
                history == old(history) + [op] && r == Verdict(digest, old(history), op) &&
                    Transacts(Attempt(digest, old(repository.Tables()), op), old(repository.Tables()),
                    repository.Tables(), r)
    {
      if expected < 1 {
        r := Err(InvalidIdentity);
        return;
      }
      RunSettled(digest, history);
      r := repository.RotateAuthorKey(author, publicKey, fingerprint, expected, q);
      ghost var op := Operation.ReplaceKey(author, publicKey, fingerprint, expected, q);
      HistoryContinues(digest, history, op, repository.Tables(), r);
      history := history + [op];
    }

    method ReplaceCredential(author: string, credential: string, token: Token, expected: int, q: Request)
      returns (r: Result<(), IdentityError>, expires: Time)
      requires Valid()
      modifies repository, this`history
      ensures Valid() && expires == q.at + ttl as real
      ensures expected < 1 ==>
                r == Err(InvalidIdentity) && history == old(history) && repository.Tables() == old(repository.Tables())
      ensures expected >= 1 ==>
                var op := Operation.ReplaceCredential(author, credential, token, expires, expected, q);
                history == old(history) + [op] && r == Verdict(digest, old(history), op) &&
                    Transacts(Attempt(digest, old(repository.Tables()), op), old(repository.Tables()),
                    repository.Tables(), r)
    {
      expires := q.at + ttl as real;
      if expected < 1 {
        r := Err(InvalidIdentity);
        return;
      }
      RunSettled(digest, history);
      r := repository.RotateAuthorCredential(author, Issue(credential, token.lookup, digest(token), expires), expected,
          q);
      ghost var op := Operation.ReplaceCredential(author, credential, token, expires, expected, q);
      HistoryContinues(digest, history, op, repository.Tables(), r);
      history := history + [op];
    }

    method Revoke(author: string, q: Request) returns (r: Result<(), IdentityError>)
      requires Valid()
      modifies repository, this`history
      ensures Valid()
      ensures var op := Operation.Revoke(author, q);
              history == old(history) + [op] && r == Verdict(digest, old(history), op) &&
                  Transacts(Attempt(digest, old(repository.Tables()), op), old(repository.Tables()),
                  repository.Tables(), r)
    {
      RunSettled(digest, history);
      r := repository.Revoke(author, q);
      ghost var op := Operation.Revoke(author, q);
      HistoryContinues(digest, history, op, repository.Tables(), r);
      history := history + [op];
    }

    /** A token authenticates as an author exactly when it is that author's current, unexpired one. */
    method Authenticate(t: Token, now: Time) returns (r: Option<Authenticated>)
      requires Valid() && Injective(digest)
      ensures AuthenticatesAll(digest, history, t, now, r)
      ensures Answers(Directed(digest, history), t, now, r) && AnswersRegistered(digest, history, r)
    {
      RunSettled(digest, history);
      AuthenticatesEvery(digest, history, t, now);
      AnswersFollowDirectory(digest, history, t, now);
      AnswersAsRegistered(digest, history, t, now);
      var found := repository.FindAuthenticationRecord(t.lookup);
      if found.None? {
        return None;
      }
      var c := repository.credentials[found.value];
      if c.author !in repository.authors {
        return None;
      }
      var a := repository.authors[c.author];
      if digest(t) != c.hash || c.standing != Active || a.standing != Active || c.expires <= now {
        return None;
      }
      r := Some(Authenticated(c.author, a.subject, a.handle, a.publicKey, found.value));
    }
  }
}
