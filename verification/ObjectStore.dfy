/** The content-addressed object directory under concurrent writers and crashes. What the operating system has been
    told to make durable is kept apart from what it merely shows. */
module ObjectStore {
  import opened Wrappers

  type Digest = string

  /** An object is named by its digest; a temporary file by the digest it is meant for and a unique number. */
  datatype Name = Object(digest: Digest) | Temp(target: Digest, unique: nat)

  datatype File = File(content: Bytes, synced: bool)

  /** `entries` is the directory as it looks; `stable` is the part of it that any crash preserves; `loose` holds
      every entry that was added or removed since the directory was last synced, which a crash may or may not bring
      back. */
  datatype Disk = Disk(files: map<nat, File>, entries: map<Name, nat>, stable: map<Name, nat>, loose: set<(Name, nat)>)

  const BLANK: Disk := Disk(map[], map[], map[], {})

  function Create(d: Disk, name: Name, ino: nat): Disk {
    d.(files := d.files[ino := File([], false)], entries := d.entries[name := ino], loose := d.loose + {(name, ino)})
  }

  function Append(d: Disk, ino: nat, chunk: Bytes): Disk
    requires ino in d.files
  {
    d.(files := d.files[ino := File(d.files[ino].content + chunk, false)])
  }

  function SyncFile(d: Disk, ino: nat): Disk
    requires ino in d.files
  {
    d.(files := d.files[ino := d.files[ino].(synced := true)])
  }

  /** A second name for a file; the caller has checked that the name is free. */
  function Link(d: Disk, name: Name, ino: nat): Disk {
    d.(entries := d.entries[name := ino], loose := d.loose + {(name, ino)})
  }

  function SyncDirectory(d: Disk): Disk {
    d.(stable := d.entries, loose := {})
  }

  function Unlink(d: Disk, name: Name): Disk {
    if name !in d.entries then d
    else d.(entries := d.entries - {name}, stable := d.stable - {name}, loose := d.loose + {(name, d.entries[name])})
  }

  /** What a crash may leave: every stable entry, any of the loose ones, synced contents unchanged, other contents
      arbitrary. */
  predicate CrashLeaves(d: Disk, after: Disk) {
    && after.stable == after.entries && after.loose == {}
    && (forall n | n in d.stable :: n in after.entries && after.entries[n] == d.stable[n])
    && (forall n | n in after.entries ::
          (n in d.stable && after.entries[n] == d.stable[n]) || (n, after.entries[n]) in d.loose)
    && (forall i | i in d.files :: i in after.files && (d.files[i].synced ==> after.files[i] == d.files[i]))
  }

  datatype StorageError = SafetyError | IntegrityError | FileNotFound

  /** Read an object back and check it against its name. */
  function Read(hash: Bytes -> Digest, d: Disk, digest: Digest): Result<Bytes, StorageError> {
    if Object(digest) !in d.entries || d.entries[Object(digest)] !in d.files then Err(FileNotFound)
    else
      var content := d.files[d.entries[Object(digest)]].content;
      if hash(content) != digest then Err(IntegrityError) else Ok(content)
  }

  // ---------- one call of store, step by step ----------

  datatype Thread =
    | Started(bytes: Bytes)
    | Writing(bytes: Bytes, unique: nat, ino: nat, written: nat)
    | Flushed(bytes: Bytes, unique: nat, ino: nat)
    | Colliding(bytes: Bytes, unique: nat)
    | Visible(bytes: Bytes, unique: nat)
    | Closing(bytes: Bytes, unique: nat, ok: bool)
    | Returned(bytes: Bytes)
    | Failed

  /** `returned` holds the payloads of all calls that returned a digest, `used` the temporary names handed out. */
  datatype System = System(disk: Disk, threads: map<nat, Thread>, returned: set<Bytes>, used: set<nat>)

  datatype Step =
    | Begin(t: nat, bytes: Bytes)
    | Open(t: nat, unique: nat, ino: nat)
    | Write(t: nat, count: nat)
    | Flush(t: nat)
    | TryLink(t: nat)
    | Compare(t: nat)
    | SyncEntry(t: nat)
    | Remove(t: nat)
    | Fault(t: nat)
    | Crash(after: Disk)

  const START: System := System(BLANK, map[], {}, {})

  function Put(s: System, t: nat, th: Thread): System {
    s.(threads := s.threads[t := th])
  }

  function TempName(hash: Bytes -> Digest, bytes: Bytes, unique: nat): Name {
    Temp(hash(bytes), unique)
  }

  function ThreadStep(hash: Bytes -> Digest, s: System, t: nat, step: Step): System
    requires t in s.threads
  {
    var d := s.disk;
    match (s.threads[t], step)
    case (Started(b), Open(_, u, i)) =>
      if u in s.used || i in d.files || TempName(hash, b, u) in d.entries then s
      else Put(s.(disk := Create(d, TempName(hash, b, u), i), used := s.used + {u}), t, Writing(b, u, i, 0))
    case (Writing(b, u, i, n), Write(_, count)) =>
      if count == 0 || n + count > |b| || i !in d.files then s
      else Put(s.(disk := Append(d, i, b[n..n + count])), t, Writing(b, u, i, n + count))
    case (Writing(b, u, i, n), Flush(_)) =>
      if n < |b| || i !in d.files then s else Put(s.(disk := SyncFile(d, i)), t, Flushed(b, u, i))
    case (Flushed(b, u, i), TryLink(_)) =>
      if TempName(hash, b, u) !in d.entries then Put(s, t, Closing(b, u, false))
      else if Object(hash(b)) in d.entries then Put(s, t, Colliding(b, u))
      else Put(s.(disk := Link(d, Object(hash(b)), d.entries[TempName(hash, b, u)])), t, Visible(b, u))
    case (Colliding(b, u), Compare(_)) =>
      var existing := Read(hash, d, hash(b));
      Put(s, t, if existing.Ok? then Visible(b, u) else Closing(b, u, false))
    case (Visible(b, u), SyncEntry(_)) => Put(s.(disk := SyncDirectory(d)), t, Closing(b, u, true))
    case (Closing(b, u, ok), Remove(_)) =>
      var cleaned := s.(disk := Unlink(d, TempName(hash, b, u)));
      if ok then Put(cleaned.(returned := s.returned + {b}), t, Returned(b)) else Put(cleaned, t, Failed)
    case (Writing(b, u, _, _), Fault(_)) => Put(s, t, Closing(b, u, false))
    case (Flushed(b, u, _), Fault(_)) => Put(s, t, Closing(b, u, false))
    case (Colliding(b, u), Fault(_)) => Put(s, t, Closing(b, u, false))
    case (Visible(b, u), Fault(_)) => Put(s, t, Closing(b, u, false))
    case _ => s
  }

  /** A step that is not enabled changes nothing. A crash ends every call. */
  function Next(hash: Bytes -> Digest, s: System, step: Step): System {
    match step
    case Begin(t, bytes) => if t in s.threads then s else Put(s, t, if bytes == [] then Failed else Started(bytes))
    case Crash(after) => if CrashLeaves(s.disk, after) then s.(disk := after, threads := map[]) else s
    case _ => if step.t in s.threads then ThreadStep(hash, s, step.t, step) else s
  }

  function Run(hash: Bytes -> Digest, s: System, steps: seq<Step>): System {
    if steps == [] then s else Next(hash, Run(hash, s, steps[..|steps| - 1]), steps[|steps| - 1])
  }

  // ---------- what every reachable state satisfies ----------

  /** The file is completely written and synced, and hashes to the digest. */
  ghost predicate Sound(hash: Bytes -> Digest, d: Disk, digest: Digest, ino: nat) {
    ino in d.files && d.files[ino].synced && hash(d.files[ino].content) == digest
  }

  /** Every entry under a digest, visible or possible after a crash, points at sound bytes. */
  ghost predicate ObjectsSound(hash: Bytes -> Digest, d: Disk) {
    && (forall n | n in d.entries && n.Object? :: Sound(hash, d, n.digest, d.entries[n]))
    && (forall e | e in d.loose && e.0.Object? :: Sound(hash, d, e.0.digest, e.1))
    && (forall n | n in d.stable :: n in d.entries && d.entries[n] == d.stable[n])
  }

  ghost predicate ThreadOk(hash: Bytes -> Digest, d: Disk, used: set<nat>, th: Thread) {
    match th
    case Writing(b, u, i, n) =>
      && u in used && n <= |b| && i in d.files && d.files[i] == File(b[..n], false)
      && TempName(hash, b, u) in d.entries && d.entries[TempName(hash, b, u)] == i
    case Flushed(b, u, i) =>
      && u in used && i in d.files && d.files[i] == File(b, true)
      && TempName(hash, b, u) in d.entries && d.entries[TempName(hash, b, u)] == i
    case Colliding(b, u) => u in used && Object(hash(b)) in d.entries
    case Visible(b, u) => u in used && Object(hash(b)) in d.entries
    case Closing(b, u, ok) => u in used && (ok ==> Object(hash(b)) in d.stable)
    case _ => true
  }

  function UniqueOf(th: Thread): Option<nat> {
    match th
    case Writing(_, u, _, _) => Some(u)
    case Flushed(_, u, _) => Some(u)
    case Colliding(_, u) => Some(u)
    case Visible(_, u) => Some(u)
    case Closing(_, u, _) => Some(u)
    case _ => None
  }

  ghost predicate Separate(a: Thread, b: Thread) {
    && (UniqueOf(a).Some? ==> UniqueOf(a) != UniqueOf(b))
    && (a.Writing? && b.Writing? ==> a.ino != b.ino)
  }

  ghost predicate ThreadsOk(hash: Bytes -> Digest, s: System) {
    forall t | t in s.threads :: ThreadOk(hash, s.disk, s.used, s.threads[t])
  }

  ghost predicate AllSeparate(threads: map<nat, Thread>) {
    forall t, u | t in threads && u in threads && t != u :: Separate(threads[t], threads[u])
  }

  ghost predicate ReturnedStable(hash: Bytes -> Digest, s: System) {
    forall b | b in s.returned :: Object(hash(b)) in s.disk.stable
  }

  ghost predicate Inv(hash: Bytes -> Digest, s: System) {
    ObjectsSound(hash, s.disk) && ThreadsOk(hash, s) && AllSeparate(s.threads) && ReturnedStable(hash, s)
  }
}
