/** The store as an object over its directory: `Store` issues the store's system calls in their order, `Read`
    checks what it returns. */
module ContentAddressedStorage {
  import opened Wrappers
  import opened ObjectStore
  import opened ObjectStoreSafety

  /** The protocol steps of one undisturbed call; `missing` says whether the object was missing. */
  function CallSteps(bytes: Bytes, unique: nat, ino: nat, missing: bool): seq<Step> {
    [Begin(0, bytes), Open(0, unique, ino), Write(0, |bytes|), Flush(0), TryLink(0)] +
    (if missing then [] else [Compare(0)]) + [SyncEntry(0), Remove(0)]
  }

  /** "sha256:" and 64 lowercase hexadecimal digits. */
  predicate WellFormed(digest: Digest) {
    && |digest| == 71
    && digest[..7] == "sha256:"
    && forall i | 7 <= i < 71 :: '0' <= digest[i] <= '9' || 'a' <= digest[i] <= 'f'
  }

  /** A hexadecimal digit in small letters. */
  function HexDigit(n: nat): char
    requires n < 16
  {
    if n < 10 then '0' + n as char else 'a' + (n - 10) as char
  }

  function HexText(hash: Bytes): string {
    if hash == [] then "" else [HexDigit(hash[0] / 16), HexDigit(hash[0] % 16)] + HexText(hash[1..])
  }

  /** What a 32-byte hash looks like as a digest. */
  predicate DigestOf(digest: Digest, hash: Bytes) {
    |hash| == 32 && digest == "sha256:" + HexText(hash)
  }

  lemma {:induction false} HexTextIsHex(hash: Bytes)
    ensures |HexText(hash)| == 2 * |hash| && AllHex(HexText(hash))
  {
    if hash != [] {
      HexTextIsHex(hash[1..]);
    }
  }

  predicate AllHex(s: string) {
    forall i | 0 <= i < |s| :: '0' <= s[i] <= '9' || 'a' <= s[i] <= 'f'
  }

  function HexNumber(c: char): nat
    requires '0' <= c <= '9' || 'a' <= c <= 'f'
    ensures HexNumber(c) < 16 && HexDigit(HexNumber(c)) == c
  {
    if c <= '9' then (c - '0') as nat else (c - 'a') as nat + 10
  }

  lemma HexDigitsJoin(high: nat, low: nat)
    requires high < 16 && low < 16
    ensures (high * 16 + low) / 16 == high && (high * 16 + low) % 16 == low
  {
  }

  lemma {:induction false} HexIsHexText(s: string) returns (hash: Bytes)
    requires |s| % 2 == 0 && AllHex(s)
    ensures HexText(hash) == s && 2 * |hash| == |s|
  {
    if s == "" {
      hash := [];
    } else {
      var rest := HexIsHexText(s[2..]);
      var high, low := HexNumber(s[0]), HexNumber(s[1]);
      HexDigitsJoin(high, low);
      hash := [high * 16 + low] + rest;
      assert hash[1..] == rest;
      assert s == [s[0], s[1]] + s[2..];
    }
  }

  /** The well-formed digests are exactly those of the 32-byte hashes. */
  lemma {:induction false} WellFormedIffDigest(digest: Digest)
    ensures WellFormed(digest) <==> exists hash :: DigestOf(digest, hash)
  {
    if hash :| DigestOf(digest, hash) {
      HexTextIsHex(hash);
      assert forall i | 7 <= i < 71 :: digest[i] == HexText(hash)[i - 7];
    }
    if WellFormed(digest) {
      var hash := HexIsHexText(digest[7..]);
      assert digest == digest[..7] + digest[7..];
      assert DigestOf(digest, hash);
    }
  }

  /** What reading a digest answers. */
  function Answer(hash: Bytes -> Digest, d: Disk, digest: Digest): Result<Bytes, StorageError> {
    if WellFormed(digest) then ObjectStore.Read(hash, d, digest) else Err(SafetyError)
  }

  /** With digests of 32-byte hashes, reading what a call has stored succeeds; and gives the payload back if it was new,
      or if no other payload has its digest. */
  lemma {:induction false} StoredReadsBack(hash: Bytes -> Digest, d: Disk, e: Disk, bytes: Bytes)
    requires StoredOk(hash, d, e, bytes) && exists h :: DigestOf(hash(bytes), h)
    ensures var r := Answer(hash, e, hash(bytes)); r.Ok? && hash(r.value) == hash(bytes)
    ensures Object(hash(bytes)) !in d.entries || (forall other | hash(other) == hash(bytes) :: other == bytes) ==>
              Answer(hash, e, hash(bytes)) == Ok(bytes)
  {
    WellFormedIffDigest(hash(bytes));
  }

  function Alone(d: Disk): System {
    System(d, map[], {}, {})
  }

  /** The directory once the object's name is there. */
  function Linked(hash: Bytes -> Digest, d: Disk, bytes: Bytes, unique: nat, ino: nat): Disk {
    var written := Written(hash, d, bytes, unique, ino);
    if Object(hash(bytes)) in written.entries then written else Link(written, Object(hash(bytes)), ino)
  }

  /** The directory after one undisturbed call. */
  function Stored(hash: Bytes -> Digest, d: Disk, bytes: Bytes, unique: nat, ino: nat): Disk {
    Unlink(ObjectStore.SyncDirectory(Linked(hash, d, bytes, unique, ino)), Temp(hash(bytes), unique))
  }

  /** Numbers not handed out yet are not in use. */
  ghost predicate Unused(d: Disk, unique: nat, ino: nat) {
    && (forall n | n in d.entries && n.Temp? :: n.unique < unique)
    && (forall i | i in d.files :: i < ino)
  }

  /** What a caller of store may rely on: the digest is durable, no temporary name is left, no other object changed,
      and a missing object now holds exactly the payload. */
  ghost predicate StoredOk(hash: Bytes -> Digest, d: Disk, e: Disk, bytes: Bytes) {
    && Object(hash(bytes)) in e.stable
    && e.entries.Keys == d.entries.Keys + {Object(hash(bytes))}
    && (forall n | n in d.entries :: e.entries[n] == d.entries[n])
    && (forall digest | Object(digest) in d.entries ::
          ObjectStore.Read(hash, e, digest) == ObjectStore.Read(hash, d, digest))
    && (if Object(hash(bytes)) in d.entries then Read(hash, e, hash(bytes)).Ok?
          else Read(hash, e, hash(bytes)) == Ok(bytes))
  }

  lemma LinkedShows(hash: Bytes -> Digest, d: Disk, bytes: Bytes, unique: nat, ino: nat)
    requires ObjectsSound(hash, d) && Unused(d, unique, ino)
    ensures var e := Linked(hash, d, bytes, unique, ino);
            && e.entries.Keys == d.entries.Keys + {Object(hash(bytes)), Temp(hash(bytes), unique)}
            && (forall n | n in d.entries :: e.entries[n] == d.entries[n])
            && (Object(hash(bytes)) !in d.entries ==> e.entries[Object(hash(bytes))] == ino)
            && e.files == d.files[ino := File(bytes, true)]
  {
    assert [] + bytes == bytes;
  }

  lemma StoredMeetsContract(hash: Bytes -> Digest, d: Disk, bytes: Bytes, unique: nat, ino: nat)
    requires ObjectsSound(hash, d) && Unused(d, unique, ino)
    ensures StoredOk(hash, d, Stored(hash, d, bytes, unique, ino), bytes)
  {
    LinkedShows(hash, d, bytes, unique, ino);
    var e := Stored(hash, d, bytes, unique, ino);
    forall digest | Object(digest) in d.entries
      ensures Read(hash, e, digest) == Read(hash, d, digest) && Read(hash, d, digest).Ok?
    {
      assert Sound(hash, d, digest, d.entries[Object(digest)]);
    }
  }

  lemma StoredKeepsUnused(hash: Bytes -> Digest, d: Disk, bytes: Bytes, unique: nat, ino: nat)
    requires ObjectsSound(hash, d) && Unused(d, unique, ino)
    ensures Unused(Stored(hash, d, bytes, unique, ino), unique + 1, ino + 1)
  {
    LinkedShows(hash, d, bytes, unique, ino);
  }

  lemma RunOneMore(hash: Bytes -> Digest, s: System, steps: seq<Step>, t: System, step: Step)
      returns (more: seq<Step>, after: System)
    requires t == Run(hash, s, steps)
    ensures more == steps + [step] && after == Next(hash, t, step) && after == Run(hash, s, more)
  {
    more, after := steps + [step], Next(hash, t, step);
    assert more[..|more| - 1] == steps;
  }

  function Written(hash: Bytes -> Digest, d: Disk, bytes: Bytes, unique: nat, ino: nat): Disk {
    SyncFile(Append(Create(d, Temp(hash(bytes), unique), ino), ino, bytes), ino)
  }

  /** One thread alone, at a given point of its call. */
  function At(d: Disk, unique: nat, th: Thread): System {
    System(d, map[0 := th], {}, {unique})
  }

  lemma OpeningSteps(hash: Bytes -> Digest, d: Disk, bytes: Bytes, unique: nat, ino: nat)
    requires Unused(d, unique, ino) && bytes != []
    ensures Next(hash, Next(hash, Alone(d), Begin(0, bytes)), Open(0, unique, ino)) ==
            At(Create(d, Temp(hash(bytes), unique), ino), unique, Writing(bytes, unique, ino, 0))
  {
  }

  lemma WritingSteps(hash: Bytes -> Digest, d: Disk, bytes: Bytes, unique: nat, ino: nat)
    requires bytes != [] && ino in d.files
    ensures var s := At(d, unique, Writing(bytes, unique, ino, 0));
            Next(hash, Next(hash, s, Write(0, |bytes|)), Flush(0)) ==
            At(SyncFile(Append(d, ino, bytes), ino), unique, Flushed(bytes, unique, ino))
  {
    assert bytes[0..|bytes|] == bytes;
  }

  lemma WritingIsRun(hash: Bytes -> Digest, d: Disk, bytes: Bytes, unique: nat, ino: nat)
    requires Unused(d, unique, ino) && bytes != []
    ensures Run(hash, Alone(d), [Begin(0, bytes), Open(0, unique, ino), Write(0, |bytes|), Flush(0)]) ==
            At(Written(hash, d, bytes, unique, ino), unique, Flushed(bytes, unique, ino))
  {
    OpeningSteps(hash, d, bytes, unique, ino);
    WritingSteps(hash, Create(d, Temp(hash(bytes), unique), ino), bytes, unique, ino);
    var steps, s := RunOneMore(hash, Alone(d), [], Alone(d), Begin(0, bytes));
    steps, s := RunOneMore(hash, Alone(d), steps, s, Open(0, unique, ino));
    steps, s := RunOneMore(hash, Alone(d), steps, s, Write(0, |bytes|));
    steps, s := RunOneMore(hash, Alone(d), steps, s, Flush(0));
    assert steps == [Begin(0, bytes), Open(0, unique, ino), Write(0, |bytes|), Flush(0)];
  }

  /** A missing object is linked at once; an existing one is compared and found equal. */
  lemma LinkingMissing(hash: Bytes -> Digest, d: Disk, bytes: Bytes, unique: nat, ino: nat)
    requires Unused(d, unique, ino) && Object(hash(bytes)) !in d.entries
    ensures var w := Written(hash, d, bytes, unique, ino);
            Next(hash, At(w, unique, Flushed(bytes, unique, ino)), TryLink(0)) ==
            At(Link(w, Object(hash(bytes)), ino), unique, Visible(bytes, unique))
  {
  }

  lemma LinkingExisting(hash: Bytes -> Digest, d: Disk, bytes: Bytes, unique: nat, ino: nat)
    requires ObjectsSound(hash, d) && Unused(d, unique, ino) && Object(hash(bytes)) in d.entries
    ensures var w := Written(hash, d, bytes, unique, ino);
            Next(hash, Next(hash, At(w, unique, Flushed(bytes, unique, ino)), TryLink(0)), Compare(0)) ==
            At(w, unique, Visible(bytes, unique))
  {
    var w := Written(hash, d, bytes, unique, ino);
    assert Sound(hash, d, hash(bytes), d.entries[Object(hash(bytes))]);
    assert Read(hash, w, hash(bytes)).Ok?;
    assert Next(hash, At(w, unique, Flushed(bytes, unique, ino)), TryLink(0)) ==
           At(w, unique, Colliding(bytes, unique));
  }

  lemma ClosingSteps(hash: Bytes -> Digest, d: Disk, bytes: Bytes, unique: nat)
    ensures Next(hash, Next(hash, At(d, unique, Visible(bytes, unique)), SyncEntry(0)), Remove(0)).disk ==
            Unlink(ObjectStore.SyncDirectory(d), Temp(hash(bytes), unique))
  {
  }

  lemma FinishRun(hash: Bytes -> Digest, d: Disk, steps: seq<Step>, visible: Disk, bytes: Bytes, unique: nat)
    requires Run(hash, Alone(d), steps) == At(visible, unique, Visible(bytes, unique))
    ensures Run(hash, Alone(d), steps + [SyncEntry(0), Remove(0)]).disk ==
            Unlink(ObjectStore.SyncDirectory(visible), Temp(hash(bytes), unique))
  {
    ClosingSteps(hash, visible, bytes, unique);
    var more, s := RunOneMore(hash, Alone(d), steps, At(visible, unique, Visible(bytes, unique)), SyncEntry(0));
    more, s := RunOneMore(hash, Alone(d), more, s, Remove(0));
    assert more == steps + [SyncEntry(0), Remove(0)];
  }

  /** The steps of a call up to the point where the object's name is there. */
  function VisibleSteps(bytes: Bytes, unique: nat, ino: nat, missing: bool): seq<Step> {
    [Begin(0, bytes), Open(0, unique, ino), Write(0, |bytes|), Flush(0)] + [TryLink(0)] +
    if missing then [] else [Compare(0)]
  }

  lemma LinkedIsRun(hash: Bytes -> Digest, d: Disk, bytes: Bytes, unique: nat, ino: nat)
    requires ObjectsSound(hash, d) && Unused(d, unique, ino) && bytes != []
    ensures Run(hash, Alone(d), VisibleSteps(bytes, unique, ino, Object(hash(bytes)) !in d.entries)) ==
            At(Linked(hash, d, bytes, unique, ino), unique, Visible(bytes, unique))
  {
    var missing := Object(hash(bytes)) !in d.entries;
    var steps := [Begin(0, bytes), Open(0, unique, ino), Write(0, |bytes|), Flush(0)];
    WritingIsRun(hash, d, bytes, unique, ino);
    var s := At(Written(hash, d, bytes, unique, ino), unique, Flushed(bytes, unique, ino));
    steps, s := RunOneMore(hash, Alone(d), steps, s, TryLink(0));
    if missing {
      LinkingMissing(hash, d, bytes, unique, ino);
    } else {
      LinkingExisting(hash, d, bytes, unique, ino);
      steps, s := RunOneMore(hash, Alone(d), steps, s, Compare(0));
    }
    assert steps == VisibleSteps(bytes, unique, ino, missing);
  }

  /** An undisturbed call is one of the protocol's runs. */
  lemma {:induction false} StoredIsRun(hash: Bytes -> Digest, d: Disk, bytes: Bytes, unique: nat, ino: nat)
    requires ObjectsSound(hash, d) && Unused(d, unique, ino) && bytes != []
    ensures Stored(hash, d, bytes, unique, ino) ==
            Run(hash, Alone(d), CallSteps(bytes, unique, ino, Object(hash(bytes)) !in d.entries)).disk
  {
    var steps := VisibleSteps(bytes, unique, ino, Object(hash(bytes)) !in d.entries);
    LinkedIsRun(hash, d, bytes, unique, ino);
    FinishRun(hash, d, steps, Linked(hash, d, bytes, unique, ino), bytes, unique);
    assert steps + [SyncEntry(0), Remove(0)] == CallSteps(bytes, unique, ino, Object(hash(bytes)) !in d.entries);
  }

  /** Everything a caller may rely on after an undisturbed call. */
  ghost predicate CallOk(hash: Bytes -> Digest, d: Disk, bytes: Bytes, unique: nat, ino: nat, e: Disk) {
    && StoredOk(hash, d, e, bytes)
    && e == Run(hash, Alone(d), CallSteps(bytes, unique, ino, Object(hash(bytes)) !in d.entries)).disk
  }

  lemma StoredRight(hash: Bytes -> Digest, d: Disk, bytes: Bytes, unique: nat, ino: nat)
    requires ObjectsSound(hash, d) && Unused(d, unique, ino) && bytes != []
    ensures var e := Stored(hash, d, bytes, unique, ino);
            CallOk(hash, d, bytes, unique, ino, e) && ObjectsSound(hash, e) && Unused(e, unique + 1, ino + 1)
  {
    StoredMeetsContract(hash, d, bytes, unique, ino);
    StoredKeepsUnused(hash, d, bytes, unique, ino);
    StoredIsRun(hash, d, bytes, unique, ino);
    RunKeepsInv(hash, Alone(d), CallSteps(bytes, unique, ino, Object(hash(bytes)) !in d.entries));
  }

  class Storage {
    const hash: Bytes -> Digest
    var disk: Disk
    var nextUnique: nat
    var nextIno: nat

    constructor (hash: Bytes -> Digest)
      ensures this.hash == hash && disk == BLANK && Valid()
    {
      this.hash := hash;
      disk := BLANK;
      nextUnique, nextIno := 0, 0;
    }

    ghost predicate Valid()
      reads this
    {
      ObjectsSound(hash, disk) && Unused(disk, nextUnique, nextIno)
    }

    /** Store a payload once. On a sound directory every non-empty payload is accepted and its digest returned. */
    method Store(bytes: Bytes) returns (r: Result<Digest, StorageError>)
      requires Valid()
      modifies this
      ensures Valid()
      ensures bytes == [] ==> r == Err(SafetyError) && disk == old(disk)
      ensures bytes != [] ==>
                r == Ok(hash(bytes)) && CallOk(hash, old(disk), bytes, old(nextUnique), old(nextIno), disk)
    {
      if bytes == [] {
        return Err(SafetyError);
      }
      ghost var before := disk;
      var digest := hash(bytes);
      var unique, ino := nextUnique, nextIno;
      var temp := Temp(digest, unique);
      nextUnique, nextIno := nextUnique + 1, nextIno + 1;
      disk := Create(disk, temp, ino);
      disk := Append(disk, ino, bytes);
      disk := SyncFile(disk, ino);
      r := Ok(digest);
      if Object(digest) !in disk.entries {
        disk := Link(disk, Object(digest), disk.entries[temp]);
      } else {
        assert Sound(hash, before, digest, before.entries[Object(digest)]);
        var existing := ObjectStore.Read(hash, disk, digest);
        if existing.Err? {
          r := Err(IntegrityError);
        }
      }
      if r.Ok? {
        disk := ObjectStore.SyncDirectory(disk);
      }
      disk := Unlink(disk, temp);
      assert disk == Stored(hash, before, bytes, unique, ino);
      StoredRight(hash, before, bytes, unique, ino);
    }

    /** Read a digest back: the bytes, or the reason why there are none. */
    method Read(digest: Digest) returns (r: Result<Bytes, StorageError>)
      ensures r == Answer(hash, disk, digest)
      ensures r.Ok? ==> hash(r.value) == digest
    {
      if !WellFormed(digest) {
        return Err(SafetyError);
      }
      if Object(digest) !in disk.entries || disk.entries[Object(digest)] !in disk.files {
        return Err(FileNotFound);
      }
      var content := disk.files[disk.entries[Object(digest)]].content;
      if hash(content) != digest {
        return Err(IntegrityError);
      }
      return Ok(content);
    }
  }
}
