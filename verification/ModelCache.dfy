/** The verification sidecar of `modelcache.py`: a cache of full hashes that must answer as the full
    hash would. First one verification at a time, as the code runs it; then every interleaving of
    several verifiers with changes of the weight file and of the sidecar. */
module ModelCache {
  import opened Text
  import opened Utf8
  import Paths

  const HASH_CHUNK: nat := 1048576

  // ---------------------------------------------------------------- the sidecar file

  datatype Json = JNull | JBool(b: bool) | JInt(n: int) | JReal | JString(s: string) | JList
                | JObject(fields: map<string, Json>)

  /** What stands at the sidecar's path: nothing readable as JSON, JSON nested deeper than the parser
      follows, which then raises past the handler, or a JSON value. */
  datatype Stored = Unreadable | TooDeep | Parsed(json: Json)

  datatype Record = Record(size: int, mtimeNs: int, sha256: string, verifiedAt: string)

  /** `_read_sidecar`: the mapping if it is readable, parseable and well-typed. */
  function ReadSidecar(stored: Stored): Option<Record> {
    if !stored.Parsed? || !stored.json.JObject? then None
    else
      var f := stored.json.fields;
      if "size" in f && f["size"].JInt? && "mtime_ns" in f && f["mtime_ns"].JInt?
         && "sha256" in f && f["sha256"].JString? && "verified_at" in f && f["verified_at"].JString?
      then Some(Record(f["size"].n, f["mtime_ns"].n, f["sha256"].s, f["verified_at"].s))
      else None
  }

  /** What a successful full verification writes. */
  function WrittenSidecar(r: Record): Stored {
    Parsed(JObject(map["size" := JInt(r.size), "mtime_ns" := JInt(r.mtimeNs),
                       "sha256" := JString(r.sha256), "verified_at" := JString(r.verifiedAt)]))
  }

  lemma SidecarRoundTrip(r: Record)
    ensures ReadSidecar(WrittenSidecar(r)) == Some(r) && WrittenSidecar(r).Parsed?
  {
  }

  /** What a successful full verification writes has exactly these four fields. */
  lemma WrittenFields(r: Record)
    ensures WrittenSidecar(r).Parsed? && WrittenSidecar(r).json.JObject?
    ensures var f := WrittenSidecar(r).json.fields;
            && f.Keys == {"size", "mtime_ns", "sha256", "verified_at"}
            && f["size"] == JInt(r.size) && f["mtime_ns"] == JInt(r.mtimeNs)
            && f["sha256"] == JString(r.sha256) && f["verified_at"] == JString(r.verifiedAt)
  {
  }

  /** Exactly what reads back as a record: an object that agrees with what would be written of it in every
      written field, whatever else it holds. */
  lemma ReadsBackIff(stored: Stored, r: Record)
    ensures ReadSidecar(stored) == Some(r) <==>
              && stored.Parsed? && stored.json.JObject?
              && forall key | key in WrittenSidecar(r).json.fields ::
                   key in stored.json.fields && stored.json.fields[key] == WrittenSidecar(r).json.fields[key]
  {
    var w := WrittenSidecar(r).json.fields;
    WrittenFields(r);
    assert "size" in w && "mtime_ns" in w && "sha256" in w && "verified_at" in w;
  }

  /** Whether the cached answer may not be used. */
  predicate NeedsFull(verifyFull: bool, sidecar: Option<Record>, size: int, mtimeNs: int, pin: string) {
    verifyFull || sidecar.None? || sidecar.value.size != size || sidecar.value.mtimeNs != mtimeNs
    || sidecar.value.sha256 != pin
  }

  // ---------------------------------------------------------------- one verification

  datatype CacheError = ModelDirUnset | CatalogInvalid | ModelMissing | SizeMismatch | ChecksumMismatch

  datatype Verified = Full | Cached

  /** Verified, refused with a typed error, or ended by an exception that is none. */
  datatype Outcome = Verified(how: Verified) | Refused(error: CacheError) | Raised

  datatype WeightFile = WeightFile(content: seq<Byte>, mtimeNs: int)

  /** `hashlib`'s object: what it has been fed determines its digest. */
  class Sha256 {
    const hash: seq<Byte> -> string
    var fed: seq<Byte>

    constructor (hash: seq<Byte> -> string)
      ensures this.hash == hash && fed == []
    {
      this.hash := hash;
      fed := [];
    }

    method Update(chunk: seq<Byte>)
      modifies this
      ensures fed == old(fed) + chunk
    {
      fed := fed + chunk;
    }

    method HexDigest() returns (digest: string)
      ensures digest == hash(fed)
    {
      digest := hash(fed);
    }
  }

  /** `_sha256_file`: reading in chunks hashes the whole content. */
  method Sha256File(hash: seq<Byte> -> string, content: seq<Byte>) returns (digest: string)
    ensures digest == hash(content)
  {
    var h := new Sha256(hash);
    var at := 0;
    while true
      invariant 0 <= at <= |content|
      invariant h.hash == hash && h.fed == content[..at]
      decreases |content| - at
    {
      var chunk := content[at..Min(at + HASH_CHUNK, |content|)];
      if chunk == [] {
        break;
      }
      h.Update(chunk);
      at := at + |chunk|;
    }
    assert content[..at] == content;
    digest := h.HexDigest();
  }

  /** The directory entry of one weight file and its sidecar, as one caller sees them. */
  class WeightEntry {
    const hash: seq<Byte> -> string
    var file: Option<WeightFile>
    var sidecar: Stored

    constructor (hash: seq<Byte> -> string, file: Option<WeightFile>)
      ensures this.hash == hash && this.file == file && Sound()
    {
      this.hash, this.file, this.sidecar := hash, file, Unreadable;
    }

    /** A sidecar that matches the file's modification time tells its true size and hash. */
    predicate Sound()
      reads this
    {
      file.Some? ==>
        var r := ReadSidecar(sidecar);
        r.Some? && r.value.mtimeNs == file.value.mtimeNs ==>
          r.value.size == |file.value.content| && r.value.sha256 == hash(file.value.content)
    }

    /** Where the weights lie, as `resolve_and_verify` computes it, and whether that is below the root. */
    predicate Inside(cwd: string, root: string, rel: seq<CodePoint>) {
      Paths.Contained(Paths.RealPath(cwd, root), Paths.RealPath(cwd, Paths.PathJoin(root, Shown(rel))))
    }

    /** The variable's name can be looked up and is set, and the path below its value can be passed on. */
    predicate Asks(env: seq<CodePoint>, root: Option<string>, rel: seq<CodePoint>) {
      FileSystemText(env) && root.Some? && root.value != "" && FileSystemPath(rel)
    }

    /** Exactly when the call ends in an exception that is no typed error: on a name that the file system
        does not accept, on a sidecar nested too deep, on weights that must be hashed and cannot be read. */
    predicate Raises(cwd: string, env: seq<CodePoint>, root: Option<string>, rel: seq<CodePoint>,
                     size: int, pin: string, verifyFull: bool, readable: bool)
      reads this
    {
      || !FileSystemText(env)
      || (root.Some? && root.value != "" && !FileSystemPath(rel))
      || (Asks(env, root, rel) && Inside(cwd, root.value, rel) && file.Some? && |file.value.content| == size
          && ((!verifyFull && sidecar.TooDeep?)
              || (!readable && NeedsFull(verifyFull, ReadSidecar(sidecar), size, file.value.mtimeNs, pin))))
    }

    /** `resolve_and_verify`. Refusals come in the code's order; with a sound sidecar a file is
        accepted exactly when it exists, has the size and hashes to the pin, whichever way the
        answer was found - unless the call raises, which is settled before; and the sidecar stays
        sound. Nothing is written on a mismatch. */
    method ResolveAndVerify(cwd: string, env: seq<CodePoint>, root: Option<string>, rel: seq<CodePoint>,
                            size: int, pin: string, verifyFull: bool, readable: bool, writable: bool, now: string)
      returns (r: Outcome)
      requires cwd != "" && cwd[0] == '/'
      requires Sound()
      modifies this`sidecar
      ensures Sound()
      ensures r.Raised? <==> old(Raises(cwd, env, root, rel, size, pin, verifyFull, readable))
      ensures r == Refused(ModelDirUnset) <==> FileSystemText(env) && (root.None? || root.value == "")
      ensures r == Refused(CatalogInvalid) <==> Asks(env, root, rel) && !Inside(cwd, root.value, rel)
      ensures !r.Raised? && r != Refused(ModelDirUnset) && r != Refused(CatalogInvalid) ==>
                && (r == Refused(ModelMissing) <==> file.None?)
                && (r == Refused(SizeMismatch) <==> file.Some? && |file.value.content| != size)
                && (r == Refused(ChecksumMismatch) <==>
                      file.Some? && |file.value.content| == size && hash(file.value.content) != pin)
      ensures r == Outcome.Verified(Cached) ==> !verifyFull && sidecar == old(sidecar)
      ensures r.Refused? || r.Raised? ==> sidecar == old(sidecar)
      ensures r == Outcome.Verified(Full) && writable ==>
                ReadSidecar(sidecar)
                == Some(Record(|file.value.content|, file.value.mtimeNs, hash(file.value.content), now))
      ensures r == Outcome.Verified(Full) && writable ==>
                !NeedsFull(false, ReadSidecar(sidecar), size, file.value.mtimeNs, pin)
      ensures r == Outcome.Verified(Full) && !writable ==> sidecar == old(sidecar)
      ensures r == Outcome.Verified(Full) && !verifyFull ==>
                NeedsFull(false, ReadSidecar(old(sidecar)), size, file.value.mtimeNs, pin)
    {
      if !FileSystemText(env) {
        return Outcome.Raised;
      }
      if root.None? || root.value == "" {
        return Refused(ModelDirUnset);
      }
      if !FileSystemPath(rel) {
        return Outcome.Raised;
      }
      var realRoot := Paths.RealPath(cwd, root.value);
      var absPath := Paths.RealPath(cwd, Paths.PathJoin(root.value, Shown(rel)));
      if !Paths.Contained(realRoot, absPath) {
        return Refused(CatalogInvalid);
      }
      if file.None? {
        return Refused(ModelMissing);
      }
      var stat := file.value;
      if |stat.content| != size {
        return Refused(SizeMismatch);
      }
      var needFull := verifyFull;
      if !needFull {
        if sidecar.TooDeep? {
          return Outcome.Raised;
        }
        needFull := NeedsFull(false, ReadSidecar(sidecar), |stat.content|, stat.mtimeNs, pin);
      }
      if !needFull {
        return Outcome.Verified(Cached);
      }
      if !readable {
        return Outcome.Raised;
      }
      var digest := Sha256File(hash, stat.content);
      if digest != pin {
        return Refused(ChecksumMismatch);
      }
      if writable {
        var record := Record(|stat.content|, stat.mtimeNs, digest, now);
        SidecarRoundTrip(record);
        sidecar := WrittenSidecar(record);
      }
      r := Outcome.Verified(Full);
    }
  }

  // ---------------------------------------------------------------- interleaved verifications

  /** One call's request: the catalog's size and pin, which may change from call to call. */
  datatype Job = Job(size: nat, pin: string, verifyFull: bool)

  /** `Broke` stands for an exception that is no typed error. */
  datatype Verdict = Accepted(how: Verified) | SizeDiffers | ChecksumDiffers | Broke

  /** Where one verifier stands. `seen` is the content at its stat; `steady` says that the file had
      not changed since then when the verdict fell. */
  datatype Verifier =
    | Called(job: Job)
    | Statted(job: Job, mtimeNs: int, seen: seq<Byte>)
    | Hashing(job: Job, mtimeNs: int, seen: seq<Byte>, fed: seq<Byte>)
    | Matched(job: Job, mtimeNs: int, seen: seq<Byte>, digest: string, steady: bool)
    | Opened(job: Job, mtimeNs: int, seen: seq<Byte>, digest: string, steady: bool)
    | Done(job: Job, seen: seq<Byte>, verdict: Verdict, steady: bool)

  /** `reuse` lets a modification bring back an old modification time. */
  datatype World = World(hash: seq<Byte> -> string, reuse: bool)

  datatype State = State(file: WeightFile, used: set<int>, sidecar: Stored, verifiers: map<nat, Verifier>)

  datatype Action =
    | Modify(content: seq<Byte>, mtimeNs: int)   // also a touch, with the content unchanged
    | Spoil(stored: Stored)                      // loss or corruption of the sidecar
    | Call(id: nat, job: Job)
    | Stat(id: nat)
    | ReadCache(id: nat)
    | HashChunk(id: nat, chunk: seq<Byte>)
    | HashEnd(id: nat)
    | HashFails(id: nat)                         // the file cannot be opened or read
    | OpenSidecar(id: nat)                       // truncates it
    | WriteSidecar(id: nat, now: string)
    | WriteFails(id: nat)

  function At(s: State, id: nat): Verifier
    requires id in s.verifiers
  {
    s.verifiers[id]
  }

  predicate Enabled(w: World, s: State, a: Action) {
    match a
    case Modify(_, mtimeNs) => w.reuse || mtimeNs !in s.used
    case Spoil(stored) => ReadSidecar(stored).None?
    case Call(id, _) => id !in s.verifiers || At(s, id).Done?
    case Stat(id) => id in s.verifiers && At(s, id).Called?
    case ReadCache(id) => id in s.verifiers && At(s, id).Statted?
    // a file that changes while it is read may yield anything; an unchanged one yields its content
    case HashChunk(id, chunk) =>
      && id in s.verifiers && At(s, id).Hashing? && chunk != [] && |chunk| <= HASH_CHUNK
      && (s.file.mtimeNs == At(s, id).mtimeNs ==> At(s, id).fed + chunk <= s.file.content)
    case HashEnd(id) =>
      && id in s.verifiers && At(s, id).Hashing?
      && (s.file.mtimeNs == At(s, id).mtimeNs ==> |At(s, id).fed| == |s.file.content|)
    case HashFails(id) => id in s.verifiers && At(s, id).Hashing?
    case OpenSidecar(id) => id in s.verifiers && At(s, id).Matched?
    case WriteSidecar(id, _) => id in s.verifiers && At(s, id).Opened?
    case WriteFails(id) => id in s.verifiers && (At(s, id).Matched? || At(s, id).Opened?)
  }

  function Move(s: State, id: nat, v: Verifier): State { s.(verifiers := s.verifiers[id := v]) }

  function Step(w: World, s: State, a: Action): State
    requires Enabled(w, s, a)
  {
    match a
    case Modify(content, mtimeNs) => s.(file := WeightFile(content, mtimeNs), used := s.used + {mtimeNs})
    case Spoil(stored) => s.(sidecar := stored)
    case Call(id, job) => Move(s, id, Called(job))
    case Stat(id) =>
      var job := At(s, id).job;
      Move(s, id, if |s.file.content| != job.size then Done(job, s.file.content, SizeDiffers, true)
                  else Statted(job, s.file.mtimeNs, s.file.content))
    case ReadCache(id) =>
      var v := At(s, id);
      Move(s, id, if !v.job.verifyFull && s.sidecar.TooDeep?
                  then Done(v.job, v.seen, Broke, s.file.mtimeNs == v.mtimeNs)
                  else if NeedsFull(v.job.verifyFull, ReadSidecar(s.sidecar), v.job.size, v.mtimeNs, v.job.pin)
                  then Hashing(v.job, v.mtimeNs, v.seen, [])
                  else Done(v.job, v.seen, Accepted(Cached), s.file.mtimeNs == v.mtimeNs))
    case HashChunk(id, chunk) => var v := At(s, id); Move(s, id, v.(fed := v.fed + chunk))
    case HashEnd(id) =>
      var v := At(s, id);
      var steady := s.file.mtimeNs == v.mtimeNs;
      Move(s, id, if w.hash(v.fed) != v.job.pin then Done(v.job, v.seen, ChecksumDiffers, steady)
                  else Matched(v.job, v.mtimeNs, v.seen, w.hash(v.fed), steady))
    case HashFails(id) => var v := At(s, id); Move(s, id, Done(v.job, v.seen, Broke, s.file.mtimeNs == v.mtimeNs))
    case OpenSidecar(id) =>
      var v := At(s, id);
      Move(s, id, Opened(v.job, v.mtimeNs, v.seen, v.digest, v.steady)).(sidecar := Unreadable)
    case WriteSidecar(id, now) =>
      var v := At(s, id);
      Move(s, id, Done(v.job, v.seen, Accepted(Full), v.steady))
        .(sidecar := WrittenSidecar(Record(v.job.size, v.mtimeNs, v.digest, now)))
    case WriteFails(id) => var v := At(s, id); Move(s, id, Done(v.job, v.seen, Accepted(Full), v.steady))
  }

  ghost predicate IsRun(w: World, s: State, actions: seq<Action>)
    decreases |actions|
  {
    actions == [] || (Enabled(w, s, actions[0]) && IsRun(w, Step(w, s, actions[0]), actions[1..]))
  }

  function After(w: World, s: State, actions: seq<Action>): State
    requires IsRun(w, s, actions)
    decreases |actions|
  {
    if actions == [] then s else After(w, Step(w, s, actions[0]), actions[1..])
  }

  /** A fresh cache: one file, no sidecar, nobody verifying. */
  function Fresh(file: WeightFile): State { State(file, {file.mtimeNs}, Unreadable, map[]) }

  // ---------------------------------------------------------------- soundness of the cache

  /** A sidecar matching the current modification time carries the current size and hash. */
  ghost predicate SidecarSound(w: World, s: State) {
    var r := ReadSidecar(s.sidecar);
    r.Some? ==>
      && r.value.mtimeNs in s.used
      && (r.value.mtimeNs == s.file.mtimeNs ==>
            r.value.size == |s.file.content| && r.value.sha256 == w.hash(s.file.content))
  }

  /** What hashing the content seen at the stat would answer. */
  predicate FullHashAccepts(w: World, job: Job, seen: seq<Byte>) { |seen| == job.size && w.hash(seen) == job.pin }

  ghost predicate VerifierOk(w: World, s: State, v: Verifier) {
    match v
    case Called(_) => true
    case Statted(job, m, seen) => Stamped(s, job, m, seen)
    case Hashing(job, m, seen, fed) => Stamped(s, job, m, seen) && (m == s.file.mtimeNs ==> fed <= s.file.content)
    case Matched(job, m, seen, digest, steady) => Digested(w, s, job, m, seen, digest, steady)
    case Opened(job, m, seen, digest, steady) => Digested(w, s, job, m, seen, digest, steady)
    case Done(job, seen, verdict, steady) =>
      steady && !verdict.Broke? ==> (verdict.Accepted? <==> FullHashAccepts(w, job, seen))
  }

  /** The recorded stat: its time was used, and if it is still current the content is what it saw. */
  ghost predicate Stamped(s: State, job: Job, m: int, seen: seq<Byte>) {
    m in s.used && |seen| == job.size && (m == s.file.mtimeNs ==> seen == s.file.content)
  }

  ghost predicate Digested(w: World, s: State, job: Job, m: int, seen: seq<Byte>, digest: string, steady: bool) {
    && Stamped(s, job, m, seen) && digest == job.pin
    && (m == s.file.mtimeNs ==> digest == w.hash(s.file.content))
    && (steady ==> w.hash(seen) == job.pin)
  }

  ghost predicate Inv(w: World, s: State) {
    && s.file.mtimeNs in s.used
    && SidecarSound(w, s)
    && forall id | id in s.verifiers :: VerifierOk(w, s, s.verifiers[id])
  }

  /** A change of the file with a fresh modification time makes every earlier stat stale. */
  lemma ModifyKeeps(w: World, s: State, content: seq<Byte>, mtimeNs: int)
    requires Inv(w, s) && mtimeNs !in s.used
    ensures Inv(w, s.(file := WeightFile(content, mtimeNs), used := s.used + {mtimeNs}))
  {
    hide ReadSidecar;
  }

  lemma SidecarKeeps(w: World, s: State, stored: Stored)
    requires Inv(w, s) && SidecarSound(w, s.(sidecar := stored))
    ensures Inv(w, s.(sidecar := stored))
  {
    hide ReadSidecar;
  }

  lemma MoveKeeps(w: World, s: State, id: nat, v: Verifier)
    requires Inv(w, s) && VerifierOk(w, s, v)
    ensures Inv(w, Move(s, id, v))
  {
    hide ReadSidecar;
  }

  lemma StepKeeps(w: World, s: State, a: Action)
    requires !w.reuse && Inv(w, s) && Enabled(w, s, a)
    ensures Inv(w, Step(w, s, a))
  {
    hide ReadSidecar, Inv;
    match a
    case Modify(content, mtimeNs) => ModifyKeeps(w, s, content, mtimeNs);
    case Spoil(stored) => SidecarKeeps(w, s, stored);
    case Call(id, job) => MoveKeeps(w, s, id, Called(job));
    case Stat(id) => StatKeeps(w, s, id);
    case ReadCache(id) => ReadCacheKeeps(w, s, id);
    case HashChunk(id, chunk) => HashKeeps(w, s, a);
    case HashEnd(id) => HashKeeps(w, s, a);
    case HashFails(id) => HashKeeps(w, s, a);
    case OpenSidecar(id) => SidecarStepKeeps(w, s, a);
    case WriteSidecar(id, now) => SidecarStepKeeps(w, s, a);
    case WriteFails(id) => SidecarStepKeeps(w, s, a);
  }

  lemma Invariant(w: World, s: State, id: nat)
    requires Inv(w, s) && id in s.verifiers
    ensures VerifierOk(w, s, s.verifiers[id]) && s.file.mtimeNs in s.used && SidecarSound(w, s)
  {
  }

  lemma StatKeeps(w: World, s: State, id: nat)
    requires Inv(w, s) && Enabled(w, s, Stat(id))
    ensures Inv(w, Step(w, s, Stat(id)))
  {
    hide ReadSidecar, Inv;
    Invariant(w, s, id);
    MoveKeeps(w, s, id, Step(w, s, Stat(id)).verifiers[id]);
  }

  lemma ReadCacheKeeps(w: World, s: State, id: nat)
    requires Inv(w, s) && Enabled(w, s, ReadCache(id))
    ensures Inv(w, Step(w, s, ReadCache(id)))
  {
    hide ReadSidecar, Inv;
    Invariant(w, s, id);
    MoveKeeps(w, s, id, Step(w, s, ReadCache(id)).verifiers[id]);
  }

  lemma HashKeeps(w: World, s: State, a: Action)
    requires Inv(w, s) && Enabled(w, s, a) && (a.HashChunk? || a.HashEnd? || a.HashFails?)
    ensures Inv(w, Step(w, s, a))
  {
    hide ReadSidecar, Inv;
    Invariant(w, s, a.id);
    var v := At(s, a.id);
    assert v.fed <= s.file.content && |v.fed| == |s.file.content| ==> v.fed == s.file.content;
    MoveKeeps(w, s, a.id, Step(w, s, a).verifiers[a.id]);
  }

  lemma SidecarStepKeeps(w: World, s: State, a: Action)
    requires Inv(w, s) && Enabled(w, s, a) && (a.OpenSidecar? || a.WriteSidecar? || a.WriteFails?)
    ensures Inv(w, Step(w, s, a))
  {
    hide Inv;
    Invariant(w, s, a.id);
    var t := Move(s, a.id, Step(w, s, a).verifiers[a.id]);
    MoveKeeps(w, s, a.id, Step(w, s, a).verifiers[a.id]);
    SidecarKeeps(w, t, Step(w, s, a).sidecar);
    assert Step(w, s, a) == t.(sidecar := Step(w, s, a).sidecar);
  }

  lemma {:induction false} RunKeeps(w: World, s: State, actions: seq<Action>)
    requires !w.reuse && Inv(w, s) && IsRun(w, s, actions)
    ensures Inv(w, After(w, s, actions))
    decreases |actions|
  {
    hide Inv, Enabled, Step;
    if actions != [] {
      StepKeeps(w, s, actions[0]);
      RunKeeps(w, Step(w, s, actions[0]), actions[1..]);
    }
  }

  /** Over every run of modifications, touches, sidecar loss, changing pins and any number of
      interleaved verifiers, as long as no modification time comes back: a sidecar that matches the
      current modification time carries the current hash, and every verdict reached while the file
      stayed as it was at the stat - cached or not - is the verdict of hashing that content. */
  lemma CacheIsSound(w: World, file: WeightFile, actions: seq<Action>)
    requires !w.reuse && IsRun(w, Fresh(file), actions)
    ensures var s := After(w, Fresh(file), actions);
            && SidecarSound(w, s)
            && forall id | id in s.verifiers && s.verifiers[id].Done? && s.verifiers[id].steady ::
                 var v := s.verifiers[id];
                 !v.verdict.Broke? ==> (v.verdict.Accepted? <==> FullHashAccepts(w, v.job, v.seen))
  {
    RunKeeps(w, Fresh(file), actions);
  }

  // ---------------------------------------------------------------- when a cached verdict can be wrong

  /** The verifier has taken its stat and has not answered yet. */
  predicate Open(v: Verifier) { v.Statted? || v.Hashing? || v.Matched? || v.Opened? }

  /** Verifiers that took the same stat saw the same content. */
  ghost predicate SameStats(s: State) {
    forall i, j | i in s.verifiers && j in s.verifiers && Open(s.verifiers[i]) && Open(s.verifiers[j])
                  && s.verifiers[i].mtimeNs == s.verifiers[j].mtimeNs ::
      s.verifiers[i].seen == s.verifiers[j].seen
  }

  /** A verifier that has yet to look at the sidecar, and would accept the record `writer` is about
      to write. */
  predicate Awaits(s: State, writer: nat, reader: nat)
    requires writer in s.verifiers && At(s, writer).Opened?
  {
    && reader in s.verifiers && At(s, reader).Statted? && !At(s, reader).job.verifyFull
    && At(s, reader).mtimeNs == At(s, writer).mtimeNs && At(s, reader).job.pin == At(s, writer).digest
  }

  /** A write is harmless when it records the hash of what its verifier saw at the stat, or when
      nobody who took the same stat still waits to look for that hash. */
  predicate Harmless(w: World, s: State, writer: nat)
    requires writer in s.verifiers && At(s, writer).Opened?
  {
    w.hash(At(s, writer).seen) == At(s, writer).digest
    || forall reader | reader in s.verifiers :: !Awaits(s, writer, reader)
  }

  ghost predicate HarmlessRun(w: World, s: State, actions: seq<Action>)
    requires IsRun(w, s, actions)
    decreases |actions|
  {
    actions != [] ==>
      && (actions[0].WriteSidecar? ==> Harmless(w, s, actions[0].id))
      && HarmlessRun(w, Step(w, s, actions[0]), actions[1..])
  }

  /** A look at the sidecar that would be answered from the cache is answered rightly, and so was
      every look in the past. */
  ghost predicate CacheRight(w: World, s: State, v: Verifier) {
    && (v.Statted? && !NeedsFull(v.job.verifyFull, ReadSidecar(s.sidecar), v.job.size, v.mtimeNs, v.job.pin) ==>
          FullHashAccepts(w, v.job, v.seen))
    && (v.Done? && v.verdict == Accepted(Cached) ==> FullHashAccepts(w, v.job, v.seen))
  }

  ghost predicate AllRight(w: World, s: State) {
    forall id | id in s.verifiers :: CacheRight(w, s, s.verifiers[id])
  }

  lemma StatsAfterMove(s: State, id: nat, v: Verifier)
    requires SameStats(s)
    requires Open(v) ==> forall j | j in s.verifiers && Open(s.verifiers[j]) && s.verifiers[j].mtimeNs == v.mtimeNs ::
                           s.verifiers[j].seen == v.seen
    ensures SameStats(Move(s, id, v))
  {
  }

  /** One stat after another sees the same content as long as the modification time is the same. */
  lemma StepKeepsStats(w: World, s: State, a: Action)
    requires Inv(w, s) && SameStats(s) && Enabled(w, s, a)
    ensures SameStats(Step(w, s, a))
  {
    hide SidecarSound, ReadSidecar, WrittenSidecar, NeedsFull;
    if !a.Modify? && !a.Spoil? {
      StatsAfterMove(s, a.id, Step(w, s, a).verifiers[a.id]);
    }
  }

  lemma RightAfterMove(w: World, s: State, id: nat, v: Verifier)
    requires AllRight(w, s) && CacheRight(w, s, v)
    ensures AllRight(w, Move(s, id, v))
  {
    hide NeedsFull, ReadSidecar;
  }

  lemma RightAfterSidecar(w: World, s: State, stored: Stored)
    requires AllRight(w, s)
    requires forall id | id in s.verifiers && s.verifiers[id].Statted? ::
               CacheRight(w, s.(sidecar := stored), s.verifiers[id])
    ensures AllRight(w, s.(sidecar := stored))
  {
    hide NeedsFull, ReadSidecar;
  }

  lemma StatIsRight(w: World, s: State, id: nat)
    requires Inv(w, s) && Enabled(w, s, Stat(id))
    ensures CacheRight(w, s, Step(w, s, Stat(id)).verifiers[id])
  {
    hide ReadSidecar;
  }

  lemma LookIsRight(w: World, s: State, id: nat)
    requires AllRight(w, s) && Enabled(w, s, ReadCache(id))
    ensures CacheRight(w, s, Step(w, s, ReadCache(id)).verifiers[id])
  {
    hide ReadSidecar, NeedsFull;
    assert CacheRight(w, s, s.verifiers[id]);
  }

  /** A write as the others see it. */
  lemma WriteIsRight(w: World, s: State, writer: nat, now: string, reader: nat)
    requires Inv(w, s) && SameStats(s) && Enabled(w, s, WriteSidecar(writer, now)) && Harmless(w, s, writer)
    requires reader in s.verifiers && s.verifiers[reader].Statted?
    ensures CacheRight(w, Step(w, s, WriteSidecar(writer, now)), s.verifiers[reader])
  {
    var v := At(s, writer);
    Invariant(w, s, writer);
    Invariant(w, s, reader);
    SidecarRoundTrip(Record(v.job.size, v.mtimeNs, v.digest, now));
    hide ReadSidecar, WrittenSidecar, Inv, SidecarSound;
    assert Awaits(s, writer, reader) || !Awaits(s, writer, reader);
  }

  lemma WriteKeepsRight(w: World, s: State, writer: nat, now: string)
    requires Inv(w, s) && SameStats(s) && AllRight(w, s)
    requires Enabled(w, s, WriteSidecar(writer, now)) && Harmless(w, s, writer)
    ensures AllRight(w, Step(w, s, WriteSidecar(writer, now)))
  {
    var a := WriteSidecar(writer, now);
    var t := Move(s, writer, Step(w, s, a).verifiers[writer]);
    forall id | id in t.verifiers && t.verifiers[id].Statted?
      ensures CacheRight(w, t.(sidecar := Step(w, s, a).sidecar), t.verifiers[id])
    {
      WriteIsRight(w, s, writer, now, id);
    }
    hide CacheRight, Inv, SameStats, Harmless, ReadSidecar, WrittenSidecar;
    DoneIsRight(w, s, a);
    RightAfterMove(w, s, writer, Step(w, s, a).verifiers[writer]);
    RightAfterSidecar(w, t, Step(w, s, a).sidecar);
    assert Step(w, s, a) == t.(sidecar := Step(w, s, a).sidecar);
  }

  /** Steps after the look at the sidecar leave nothing to be judged by it. */
  lemma DoneIsRight(w: World, s: State, a: Action)
    requires Enabled(w, s, a)
    requires !a.Modify? && !a.Spoil? && !a.Stat? && !a.ReadCache?
    ensures CacheRight(w, s, Step(w, s, a).verifiers[a.id])
  {
    hide ReadSidecar, WrittenSidecar, NeedsFull;
  }

  lemma LossIsRight(w: World, s: State, stored: Stored)
    requires AllRight(w, s) && ReadSidecar(stored).None?
    ensures AllRight(w, s.(sidecar := stored))
  {
    hide ReadSidecar;
    RightAfterSidecar(w, s, stored);
  }

  lemma StepKeepsRight(w: World, s: State, a: Action)
    requires Inv(w, s) && SameStats(s) && AllRight(w, s) && Enabled(w, s, a)
    requires a.WriteSidecar? ==> Harmless(w, s, a.id)
    ensures AllRight(w, Step(w, s, a))
  {
    match a
    case Modify(_, _) => hide ReadSidecar, NeedsFull;
    case Spoil(stored) => LossIsRight(w, s, stored);
    case WriteSidecar(id, now) => WriteKeepsRight(w, s, id, now);
    case Stat(id) =>
      StatIsRight(w, s, id);
      hide CacheRight;
      RightAfterMove(w, s, id, Step(w, s, a).verifiers[id]);
    case ReadCache(id) =>
      LookIsRight(w, s, id);
      hide CacheRight;
      RightAfterMove(w, s, id, Step(w, s, a).verifiers[id]);
    case OpenSidecar(id) =>
      DoneIsRight(w, s, a);
      hide CacheRight;
      RightAfterMove(w, s, id, Step(w, s, a).verifiers[id]);
      LossIsRight(w, Move(s, id, Step(w, s, a).verifiers[id]), Unreadable);
    case _ =>
      DoneIsRight(w, s, a);
      hide CacheRight;
      RightAfterMove(w, s, a.id, Step(w, s, a).verifiers[a.id]);
  }

  lemma {:induction false} HarmlessRunKeepsRight(w: World, s: State, actions: seq<Action>)
    requires !w.reuse && Inv(w, s) && SameStats(s) && AllRight(w, s)
    requires IsRun(w, s, actions) && HarmlessRun(w, s, actions)
    ensures AllRight(w, After(w, s, actions))
    decreases |actions|
  {
    hide Inv, Enabled, Step, SameStats, AllRight, Harmless;
    if actions != [] {
      StepKeeps(w, s, actions[0]);
      StepKeepsStats(w, s, actions[0]);
      StepKeepsRight(w, s, actions[0]);
      HarmlessRunKeepsRight(w, Step(w, s, actions[0]), actions[1..]);
    }
  }

  /** As long as no modification time comes back and every write of the sidecar is harmless, every
      verdict answered from the cache - whatever the file did meanwhile - is the verdict of hashing the
      content at the stat. */
  lemma CachedVerdictsAreRight(w: World, file: WeightFile, actions: seq<Action>)
    requires !w.reuse && IsRun(w, Fresh(file), actions) && HarmlessRun(w, Fresh(file), actions)
    ensures var s := After(w, Fresh(file), actions);
            forall id | id in s.verifiers && s.verifiers[id].Done? && s.verifiers[id].verdict == Accepted(Cached) ::
              FullHashAccepts(w, s.verifiers[id].job, s.verifiers[id].seen)
  {
    HarmlessRunKeepsRight(w, Fresh(file), actions);
    hide After, IsRun, HarmlessRun;
    var s := After(w, Fresh(file), actions);
    assert forall id | id in s.verifiers :: CacheRight(w, s, s.verifiers[id]);
  }

  /** A write by a verifier whose file stayed as it was until its hash ended is harmless. */
  lemma SteadyIsHarmless(w: World, s: State, writer: nat)
    requires Inv(w, s) && writer in s.verifiers && At(s, writer).Opened? && At(s, writer).steady
    ensures Harmless(w, s, writer)
  {
    Invariant(w, s, writer);
  }

  ghost predicate SteadyWrites(w: World, s: State, actions: seq<Action>)
    requires IsRun(w, s, actions)
    decreases |actions|
  {
    actions != [] ==>
      && (actions[0].WriteSidecar? ==> At(s, actions[0].id).steady)
      && SteadyWrites(w, Step(w, s, actions[0]), actions[1..])
  }

  /** So verifiers that write only what they hashed of an unchanged file never mislead anyone. */
  lemma {:induction false} SteadyWritesAreHarmless(w: World, s: State, actions: seq<Action>)
    requires !w.reuse && Inv(w, s) && IsRun(w, s, actions) && SteadyWrites(w, s, actions)
    ensures HarmlessRun(w, s, actions)
    decreases |actions|
  {
    hide Inv, Step, Harmless;
    if actions != [] {
      if actions[0].WriteSidecar? {
        SteadyIsHarmless(w, s, actions[0].id);
      }
      StepKeeps(w, s, actions[0]);
      SteadyWritesAreHarmless(w, Step(w, s, actions[0]), actions[1..]);
    }
  }

  /** At most one verification is between its stat and its answer. */
  ghost predicate OneOpen(s: State) {
    forall i, j | i in s.verifiers && j in s.verifiers && Open(s.verifiers[i]) && Open(s.verifiers[j]) :: i == j
  }

  ghost predicate NoOverlap(w: World, s: State, actions: seq<Action>)
    requires IsRun(w, s, actions)
    decreases |actions|
  {
    OneOpen(s) && (actions != [] ==> NoOverlap(w, Step(w, s, actions[0]), actions[1..]))
  }

  /** What a caller can arrange: verifications of a file that do not overlap never mislead each other,
      whatever happens to the file meanwhile. */
  lemma {:induction false} NoOverlapIsHarmless(w: World, s: State, actions: seq<Action>)
    requires IsRun(w, s, actions) && NoOverlap(w, s, actions)
    ensures HarmlessRun(w, s, actions)
    decreases |actions|
  {
    hide Step;
    if actions != [] {
      NoOverlapIsHarmless(w, Step(w, s, actions[0]), actions[1..]);
    }
  }

  lemma {:induction false} RunKeepsStats(w: World, s: State, actions: seq<Action>)
    requires !w.reuse && Inv(w, s) && SameStats(s) && IsRun(w, s, actions)
    ensures SameStats(After(w, s, actions))
    decreases |actions|
  {
    hide Inv, Enabled, Step, SameStats;
    if actions != [] {
      StepKeeps(w, s, actions[0]);
      StepKeepsStats(w, s, actions[0]);
      RunKeepsStats(w, Step(w, s, actions[0]), actions[1..]);
    }
  }

  /** The condition is exact, write by write and for every reachable state: a write is harmless
      exactly when nobody who looks at the sidecar right after it is answered wrongly from the cache. */
  lemma HarmlessIffNobodyIsMisled(w: World, file: WeightFile, actions: seq<Action>, writer: nat, now: string)
    requires !w.reuse && IsRun(w, Fresh(file), actions)
    requires Enabled(w, After(w, Fresh(file), actions), WriteSidecar(writer, now))
    ensures var s := After(w, Fresh(file), actions);
            Harmless(w, s, writer) <==> forall reader | reader in s.verifiers :: !Misled(w, s, writer, now, reader)
  {
    RunKeeps(w, Fresh(file), actions);
    RunKeepsStats(w, Fresh(file), actions);
    hide After, IsRun;
    var s := After(w, Fresh(file), actions);
    forall reader | reader in s.verifiers
      ensures Misled(w, s, writer, now, reader) <==>
                Awaits(s, writer, reader) && w.hash(At(s, writer).seen) != At(s, writer).digest
    {
      MisledIff(w, s, writer, now, reader);
    }
  }

  /** Between the opening of the sidecar and its writing nobody is answered from the cache. */
  lemma TruncatedSidecarAnswersNobody(w: World, s: State, writer: nat, reader: nat)
    requires Enabled(w, s, OpenSidecar(writer)) && reader != writer
    requires reader in s.verifiers && At(s, reader).Statted?
    ensures var s' := Step(w, s, OpenSidecar(writer));
            && ReadSidecar(s'.sidecar).None?
            && Enabled(w, s', ReadCache(reader)) && At(Step(w, s', ReadCache(reader)), reader).Hashing?
  {
  }

  /** Looking right after the write, `reader` is answered from the cache, and wrongly. */
  predicate Misled(w: World, s: State, writer: nat, now: string, reader: nat)
    requires Enabled(w, s, WriteSidecar(writer, now))
  {
    var s' := Step(w, s, WriteSidecar(writer, now));
    && Enabled(w, s', ReadCache(reader))
    && var v := At(Step(w, s', ReadCache(reader)), reader);
       v.Done? && v.verdict == Accepted(Cached) && !FullHashAccepts(w, v.job, v.seen)
  }

  lemma MisledIff(w: World, s: State, writer: nat, now: string, reader: nat)
    requires Inv(w, s) && SameStats(s) && reader in s.verifiers && Enabled(w, s, WriteSidecar(writer, now))
    ensures Misled(w, s, writer, now, reader) <==>
              Awaits(s, writer, reader) && w.hash(At(s, writer).seen) != At(s, writer).digest
  {
    var v := At(s, writer);
    Invariant(w, s, writer);
    Invariant(w, s, reader);
    SidecarRoundTrip(Record(v.job.size, v.mtimeNs, v.digest, now));
    hide ReadSidecar, WrittenSidecar, Inv, SidecarSound;
  }

  // ---------------------------------------------------------------- the conditions are needed

  lemma RunFrom(w: World, s: State, a: Action, rest: seq<Action>, last: State)
    requires Enabled(w, s, a) && IsRun(w, Step(w, s, a), rest) && After(w, Step(w, s, a), rest) == last
    ensures IsRun(w, s, [a] + rest) && After(w, s, [a] + rest) == last
  {
    hide Enabled, Step;
    assert ([a] + rest)[1..] == rest;
  }

  lemma {:induction false} RunAppend(w: World, s: State, a: seq<Action>, b: seq<Action>)
    requires IsRun(w, s, a) && IsRun(w, After(w, s, a), b)
    ensures IsRun(w, s, a + b) && After(w, s, a + b) == After(w, After(w, s, a), b)
    decreases |a|
  {
    hide Enabled, Step;
    if a == [] {
      assert a + b == b;
    } else {
      assert (a + b)[0] == a[0] && (a + b)[1..] == a[1..] + b;
      RunAppend(w, Step(w, s, a[0]), a[1..], b);
    }
  }

  /** Two verifiers have taken the stat of the old content, and then the file has changed. */
  function BothStatted(job: Job, was: seq<Byte>, pinned: seq<Byte>): State {
    State(WeightFile(pinned, 1), {0, 1}, Unreadable, map[1 := Statted(job, 0, was), 2 := Statted(job, 0, was)])
  }

  lemma TwoStats(w: World, job: Job, was: seq<Byte>, pinned: seq<Byte>) returns (actions: seq<Action>)
    requires job.size == |was|
    ensures IsRun(w, Fresh(WeightFile(was, 0)), actions)
    ensures After(w, Fresh(WeightFile(was, 0)), actions) == BothStatted(job, was, pinned)
  {
    var f := WeightFile(was, 0);
    var s0 := Fresh(f);
    var s1 := State(f, {0}, Unreadable, map[1 := Called(job)]);
    var s2 := State(f, {0}, Unreadable, map[1 := Statted(job, 0, was)]);
    var s3 := State(f, {0}, Unreadable, map[1 := Statted(job, 0, was), 2 := Called(job)]);
    var s4 := State(f, {0}, Unreadable, map[1 := Statted(job, 0, was), 2 := Statted(job, 0, was)]);
    var last := BothStatted(job, was, pinned);
    assert Step(w, s0, Call(1, job)) == s1;
    assert Step(w, s1, Stat(1)) == s2;
    assert Step(w, s2, Call(2, job)) == s3;
    assert Step(w, s3, Stat(2)) == s4;
    assert Step(w, s4, Modify(pinned, 1)) == last;
    hide Step;
    RunFrom(w, s4, Modify(pinned, 1), [], last);
    RunFrom(w, s3, Stat(2), [Modify(pinned, 1)] + [], last);
    RunFrom(w, s2, Call(2, job), [Stat(2)] + ([Modify(pinned, 1)] + []), last);
    RunFrom(w, s1, Stat(1), [Call(2, job)] + ([Stat(2)] + ([Modify(pinned, 1)] + [])), last);
    actions := [Call(1, job)] + ([Stat(1)] + ([Call(2, job)] + ([Stat(2)] + ([Modify(pinned, 1)] + []))));
    RunFrom(w, s0, Call(1, job), [Stat(1)] + ([Call(2, job)] + ([Stat(2)] + ([Modify(pinned, 1)] + []))), last);
  }

  /** The second verifier has recorded the new content's hash under the old modification time. */
  function Recorded(w: World, job: Job, was: seq<Byte>, pinned: seq<Byte>): State {
    BothStatted(job, was, pinned).(
      sidecar := WrittenSidecar(Record(job.size, 0, w.hash(pinned), "")),
      verifiers := map[1 := Statted(job, 0, was), 2 := Done(job, was, Accepted(Full), false)])
  }

  /** The second verifier has hashed the new content to the pin. */
  function SecondMatched(w: World, job: Job, was: seq<Byte>, pinned: seq<Byte>): State {
    BothStatted(job, was, pinned).(
      verifiers := map[1 := Statted(job, 0, was), 2 := Matched(job, 0, was, w.hash(pinned), false)])
  }

  /** A file that has changed since the stat may yield anything to the hash, chunk by chunk. */
  lemma {:induction false} HashesAnything(w: World, s: State, id: nat, content: seq<Byte>)
    returns (actions: seq<Action>)
    requires id in s.verifiers && At(s, id).Hashing? && s.file.mtimeNs != At(s, id).mtimeNs
    ensures IsRun(w, s, actions)
    ensures After(w, s, actions) == Move(s, id, At(s, id).(fed := At(s, id).fed + content))
    decreases |content|
  {
    var v := At(s, id);
    if content == [] {
      assert v.fed + content == v.fed;
      assert s.verifiers[id := v] == s.verifiers;
      actions := [];
    } else {
      var k := Min(HASH_CHUNK, |content|);
      var a := HashChunk(id, content[..k]);
      var s' := Move(s, id, v.(fed := v.fed + content[..k]));
      assert Step(w, s, a) == s';
      var rest := HashesAnything(w, s', id, content[k..]);
      var last := Move(s, id, v.(fed := v.fed + content));
      assert (v.fed + content[..k]) + content[k..] == v.fed + content;
      assert s'.verifiers[id := last.verifiers[id]] == last.verifiers;
      RunFrom(w, s, a, rest, last);
      actions := [a] + rest;
    }
  }

  lemma SecondHashes(w: World, job: Job, was: seq<Byte>, pinned: seq<Byte>) returns (actions: seq<Action>)
    requires job == Job(|was|, w.hash(pinned), false)
    ensures IsRun(w, BothStatted(job, was, pinned), actions)
    ensures After(w, BothStatted(job, was, pinned), actions) == SecondMatched(w, job, was, pinned)
  {
    var s0 := BothStatted(job, was, pinned);
    var one := Statted(job, 0, was);
    var s1 := s0.(verifiers := map[1 := one, 2 := Hashing(job, 0, was, [])]);
    var s2 := s0.(verifiers := map[1 := one, 2 := Hashing(job, 0, was, pinned)]);
    assert [] + pinned == pinned;
    var fed := HashesAnything(w, s1, 2, pinned);
    assert Move(s1, 2, At(s1, 2).(fed := [] + pinned)) == s2;
    assert Step(w, s0, ReadCache(2)) == s1;
    assert Step(w, s2, HashEnd(2)) == SecondMatched(w, job, was, pinned);
    hide Step, ReadSidecar;
    RunFrom(w, s0, ReadCache(2), fed, s2);
    actions := [ReadCache(2)] + fed;
    OneMore(w, s0, actions, HashEnd(2));
    actions := actions + [HashEnd(2)];
  }

  lemma SecondRecords(w: World, job: Job, was: seq<Byte>, pinned: seq<Byte>) returns (actions: seq<Action>)
    requires job == Job(|was|, w.hash(pinned), false)
    ensures IsRun(w, BothStatted(job, was, pinned), actions)
    ensures After(w, BothStatted(job, was, pinned), actions) == Recorded(w, job, was, pinned)
  {
    var s3 := SecondMatched(w, job, was, pinned);
    var s4 := s3.(verifiers := map[1 := Statted(job, 0, was), 2 := Opened(job, 0, was, w.hash(pinned), false)]);
    var last := Recorded(w, job, was, pinned);
    var hashed := SecondHashes(w, job, was, pinned);
    assert Step(w, s3, OpenSidecar(2)) == s4;
    assert Step(w, s4, WriteSidecar(2, "")) == last;
    hide Step, WrittenSidecar, ReadSidecar;
    RunFrom(w, s4, WriteSidecar(2, ""), [], last);
    RunFrom(w, s3, OpenSidecar(2), [WriteSidecar(2, "")] + [], last);
    actions := hashed + ([OpenSidecar(2)] + ([WriteSidecar(2, "")] + []));
    RunAppend(w, BothStatted(job, was, pinned), hashed, [OpenSidecar(2)] + ([WriteSidecar(2, "")] + []));
  }

  lemma StaleRecord(w: World, was: seq<Byte>, pinned: seq<Byte>) returns (actions: seq<Action>, job: Job)
    ensures job == Job(|was|, w.hash(pinned), false)
    ensures IsRun(w, Fresh(WeightFile(was, 0)), actions)
    ensures After(w, Fresh(WeightFile(was, 0)), actions) == Recorded(w, job, was, pinned)
  {
    job := Job(|was|, w.hash(pinned), false);
    var a := TwoStats(w, job, was, pinned);
    var b := SecondRecords(w, job, was, pinned);
    RunAppend(w, Fresh(WeightFile(was, 0)), a, b);
    actions := a + b;
  }

  lemma OneMore(w: World, s: State, actions: seq<Action>, a: Action)
    requires IsRun(w, s, actions) && Enabled(w, After(w, s, actions), a)
    ensures IsRun(w, s, actions + [a]) && After(w, s, actions + [a]) == Step(w, After(w, s, actions), a)
  {
    hide Enabled, Step;
    var t := After(w, s, actions);
    assert [a][1..] == [];
    assert IsRun(w, t, [a]) && After(w, t, [a]) == Step(w, t, a);
    RunAppend(w, s, actions, [a]);
  }

  /** A file that changes between one verifier's stat and its look at the sidecar, hashed meanwhile by
      another that took the same stat: the cached answer accepts although the content of the stat
      does not hash to the pin. Not staying steady is therefore a real exception, for every pair of
      contents with different hashes. */
  lemma UnsteadyCacheDiffers(w: World, was: seq<Byte>, pinned: seq<Byte>) returns (actions: seq<Action>)
    requires |was| == |pinned| && w.hash(was) != w.hash(pinned)
    ensures IsRun(w, Fresh(WeightFile(was, 0)), actions)
    ensures var s := After(w, Fresh(WeightFile(was, 0)), actions);
            && 1 in s.verifiers && s.verifiers[1].Done? && s.verifiers[1].verdict == Accepted(Cached)
            && !FullHashAccepts(w, s.verifiers[1].job, s.verifiers[1].seen)
  {
    var before, job := StaleRecord(w, was, pinned);
    SidecarRoundTrip(Record(job.size, 0, w.hash(pinned), ""));
    hide After, IsRun, WrittenSidecar, ReadSidecar;
    OneMore(w, Fresh(WeightFile(was, 0)), before, ReadCache(1));
    actions := before + [ReadCache(1)];
  }

  /** If an old modification time may come back, so may the stale record: the sidecar then matches
      the current time and carries another content's hash. */
  lemma ReuseBreaksSoundness(w: World, was: seq<Byte>, pinned: seq<Byte>) returns (actions: seq<Action>)
    requires w.reuse && |was| == |pinned| && w.hash(was) != w.hash(pinned)
    ensures IsRun(w, Fresh(WeightFile(was, 0)), actions)
    ensures !SidecarSound(w, After(w, Fresh(WeightFile(was, 0)), actions))
  {
    var before, job := StaleRecord(w, was, pinned);
    SidecarRoundTrip(Record(job.size, 0, w.hash(pinned), ""));
    hide After, IsRun, WrittenSidecar, ReadSidecar;
    OneMore(w, Fresh(WeightFile(was, 0)), before, Modify(was, 0));
    actions := before + [Modify(was, 0)];
  }
}
