/**
 Publication of a confirmed upload (`upload.service.ts`, `upload-pending-sweep.processor.ts`): the
 client writes a `pending/` object through a presigned URL, the server verifies it and copies it to
 the final key. A step is one storage call or one SQL statement, so between any two steps the
 client may replace the pending object, other confirmations may run, and any job may die.
 */
module UploadPublish {
  import opened Prelude

  type Bytes = seq<nat>

  const PENDING_PREFIX: string := "pending/"

  /** How many leading bytes the magic-byte check reads. */
  const HEADER_BYTES: nat := 32

  // ----- Keys -----

  predicate IsPendingKey(key: string) {
    PENDING_PREFIX <= key
  }

  function BuildPendingKey(finalKey: string): string {
    PENDING_PREFIX + finalKey
  }

  function StripPendingPrefix(key: string): string {
    if IsPendingKey(key) then key[|PENDING_PREFIX|..] else key
  }

  /** Stripping undoes building; on any other key it is the identity, and then twice is once. */
  lemma StripUndoesBuild(key: string)
    ensures StripPendingPrefix(BuildPendingKey(key)) == key && IsPendingKey(BuildPendingKey(key))
    ensures IsPendingKey(key) ==> BuildPendingKey(StripPendingPrefix(key)) == key
    ensures !IsPendingKey(key) ==> StripPendingPrefix(key) == key
    ensures StripPendingPrefix(key) != key <==> IsPendingKey(key)
  {
    assert BuildPendingKey(key)[|PENDING_PREFIX|..] == key;
    assert IsPendingKey(key) ==> |StripPendingPrefix(key)| < |key|;
  }

  // ----- Storage -----

  datatype Object = Object(bytes: Bytes, contentType: string)

  /** What the code does not define: the content-type tables, the magic-byte check, the SVG
      sanitizer (which may throw) and the storage's ETags. */
  datatype World = World(
    isSvg: string -> bool,
    isVerifiable: string -> bool,
    magic: (Bytes, string) -> bool,
    sanitize: Bytes -> Option<Bytes>,
    eTag: Bytes -> string)

  function Header(b: Bytes): (header: Bytes)
    ensures header <= b && (|header| == 32 || (|header| < 32 && header == b))
  {
    if |b| <= HEADER_BYTES then b else b[..HEADER_BYTES]
  }

  /** `copyObject`, conditional on the source's ETag when one is given. */
  function CopyObject(
    w: World, objects: map<string, Object>, source: string, target: string, contentType: string, eTag: Option<string>)
    : Result<map<string, Object>, CopyError>
  {
    if source !in objects then Err(NotFound)
    else if eTag.Some? && w.eTag(objects[source].bytes) != eTag.value then Err(PreconditionFailed)
    else Ok(objects[target := Object(objects[source].bytes, contentType)])
  }

  datatype CopyError = NotFound | PreconditionFailed

  /** A servable object: sanitized if it is an SVG, header-checked if its type can be. */
  ghost predicate Verified(w: World, o: Object) {
    if w.isSvg(o.contentType) then exists source :: w.sanitize(source) == Some(o.bytes)
    else w.isVerifiable(o.contentType) ==> w.magic(Header(o.bytes), o.contentType)
  }

  /** Uploaded bytes that a publication accepts. */
  predicate Acceptable(w: World, bytes: Bytes, contentType: string) {
    if w.isSvg(contentType) then w.sanitize(bytes).Some?
    else w.isVerifiable(contentType) ==> w.magic(Header(bytes), contentType)
  }

  /** The bucket, and the publication step run by itself. */
  class Bucket {
    var objects: map<string, Object>

    constructor ()
      ensures objects == map[]
    {
      objects := map[];
    }

    method Copy(w: World, source: string, target: string, contentType: string, eTag: Option<string>) returns (ok: bool)
      modifies this
      ensures ok == CopyObject(w, old(objects), source, target, contentType, eTag).Ok?
      ensures objects ==
              if ok then CopyObject(w, old(objects), source, target, contentType, eTag).value else old(objects)
      ensures ok <==>
        source in old(objects) && (eTag.Some? ==> w.eTag(old(objects)[source].bytes) == eTag.value)
      ensures objects ==
              if ok then old(objects)[target := Object(old(objects)[source].bytes, contentType)] else old(objects)
    {
      ok := false;
      if source in objects && (eTag.None? || w.eTag(objects[source].bytes) == eTag.value) {
        objects := objects[target := Object(objects[source].bytes, contentType)];
        ok := true;
      }
    }

    /** `publishConfirmedObject` without interference; a thrown error is a `false`. */
    method Publish(w: World, source: string, target: string, contentType: string) returns (published: bool)
      requires source != target
      modifies this
      ensures published <==> source in old(objects) && Acceptable(w, old(objects)[source].bytes, contentType)
      ensures published ==> target in objects && objects == old(objects)[target := objects[target]]
      ensures published ==> objects[target].contentType == contentType && Verified(w, objects[target])
      ensures published && w.isSvg(contentType) ==>
        w.sanitize(old(objects)[source].bytes) == Some(objects[target].bytes)
      ensures published && !w.isSvg(contentType) ==> objects[target].bytes == old(objects)[source].bytes
      ensures !published ==> objects == old(objects)
    {
      if source !in objects { return false; }
      if w.isSvg(contentType) {
        var sanitized := w.sanitize(objects[source].bytes);
        if sanitized.None? { return false; }
        objects := objects[target := Object(sanitized.value, contentType)];
        return true;
      }
      if w.isVerifiable(contentType) {
        var body := objects[source].bytes;
        if !w.magic(Header(body), contentType) { return false; }
        published := Copy(w, source, target, contentType, Some(w.eTag(body)));
        return;
      }
      published := Copy(w, source, target, contentType, None);
    }
  }

  // ----- The lifecycle -----

  datatype Status = Pending | Uploaded | Failed

  datatype Row = Row(key: string, mime: string, size: nat, createdAt: nat, status: Status, deleted: bool)

  /** Where a confirmation stands. `Checked` keeps the ETag the copy will be pinned to, and the
      bytes whose header was read. */
  datatype Phase =
    | Loaded
    | Headed
    | Checked(eTag: Option<string>, seen: Bytes)
    | Sanitized(bytes: Bytes)
    | Published
    | Rejecting
    | Cleaning
    | Orphaned

  /** A confirmation requested by the client, or (`sweep`) by the pending sweeper. */
  datatype Job = Job(row: nat, source: string, mime: string, size: nat, sweep: bool, phase: Phase)

  /** `alwaysETag`: storage returns an ETag on every read. `writeWindow`: how long after a row's
      creation its presigned URL can still write. `sweepAge`: the age past which the sweeper takes
      a row. */
  datatype Config = Config(alwaysETag: bool, writeWindow: nat, sweepAge: nat)

  /** `issued` maps each final key handed out to the time its row was created; `published` collects
      the final keys ever written. */
  datatype State = State(
    now: nat,
    objects: map<string, Object>,
    rows: map<nat, Row>,
    jobs: map<nat, Job>,
    issued: map<string, nat>,
    published: set<string>)

  datatype Event =
    | Tick(elapsed: nat)
    | Create(row: nat, key: string, mime: string, size: nat)
    | CreateLegacy(row: nat, key: string, mime: string, size: nat)
    | ClientPut(key: string, content: Object)
    | ForeignPut(key: string, content: Object)
    | RemoveObject(key: string)
    | SoftDelete(row: nat)
    | HardDelete(row: nat)
    | Confirm(job: nat, row: nat)
    | Sweep(job: nat, row: nat)
    | Head(job: nat, typeReported: bool)
    | ReadHeader(job: nat, withETag: bool)
    | ReadSvg(job: nat)
    | Write(job: nat)
    | MarkConfirmed(job: nat)
    | MarkFailed(job: nat)
    | DropPending(job: nat)
    | DropOrphan(job: nat)
    | Crash(job: nat)

  function Init(): State {
    State(0, map[], map[], map[], map[], {})
  }

  function To(s: State, j: nat, p: Phase): State
    requires j in s.jobs
  {
    s.(jobs := s.jobs[j := s.jobs[j].(phase := p)])
  }

  predicate At(s: State, j: nat, p: Phase) {
    j in s.jobs && s.jobs[j].phase == p
  }

  /** The job of a client's confirmation; a row that never had a pending key is refused. */
  function ConfirmJob(r: Row, id: nat): Job {
    Job(id, r.key, r.mime, r.size, false, if IsPendingKey(r.key) then Loaded else Rejecting)
  }

  /** The sweeper's job for a row; it does not publish SVGs. */
  function SweepJob(w: World, r: Row, id: nat): Job {
    Job(id, r.key, r.mime, r.size, true, if w.isSvg(r.mime) || !IsPendingKey(r.key) then Rejecting else Loaded)
  }

  /** A failed copy: the client's row is rejected (or, when the error is rethrown, left: `Crash`);
      the sweeper moves on to its next row. */
  function GiveUp(s: State, j: nat): State
    requires j in s.jobs
  {
    if s.jobs[j].sweep then s.(jobs := s.jobs - {j}) else To(s, j, Rejecting)
  }

  /** Past its checks, or of a type that has none. */
  predicate MayWrite(w: World, job: Job) {
    job.phase.Sanitized? || job.phase.Checked? || (job.phase.Headed? && !w.isSvg(job.mime) && !w.isVerifiable(job.mime))
  }

  /** The write that publishes: the sanitized SVG, or the copy. */
  function Written(w: World, objects: map<string, Object>, job: Job): Result<map<string, Object>, CopyError> {
    var target := StripPendingPrefix(job.source);
    match job.phase
    case Sanitized(bytes) => Ok(objects[target := Object(bytes, job.mime)])
    case Checked(eTag, _) => CopyObject(w, objects, job.source, target, job.mime, eTag)
    case _ => CopyObject(w, objects, job.source, target, job.mime, None)
  }

  function Publish(w: World, s: State, j: nat): State
    requires j in s.jobs
  {
    if !MayWrite(w, s.jobs[j]) then s
    else
      match Written(w, s.objects, s.jobs[j])
      case Err(_) => GiveUp(s, j)
      case Ok(objects) =>
        To(s, j, Published).(objects := objects, published := s.published + {StripPendingPrefix(s.jobs[j].source)})
  }

  predicate HeadMatches(s: State, job: Job, typeReported: bool) {
    && job.source in s.objects
    && |s.objects[job.source].bytes| == job.size
    && (typeReported ==> s.objects[job.source].contentType == job.mime)
  }

  /** The HEAD check; the sweeper treats a missing object as an abandoned reservation. */
  function HeadPending(s: State, j: nat, typeReported: bool): State {
    if !At(s, j, Loaded) then s
    else if s.jobs[j].sweep && s.jobs[j].source !in s.objects then To(s, j, Orphaned)
    else To(s, j, if HeadMatches(s, s.jobs[j], typeReported) then Headed else Rejecting)
  }

  /** The ranged read of the header. The sweeper does not pin its copy to the ETag it was given. */
  function CheckHeader(w: World, s: State, j: nat, withETag: bool): State {
    if !At(s, j, Headed) || w.isSvg(s.jobs[j].mime) || !w.isVerifiable(s.jobs[j].mime) then s
    else
      var job := s.jobs[j];
      if job.source in s.objects && w.magic(Header(s.objects[job.source].bytes), job.mime) then
        var body := s.objects[job.source].bytes;
        To(s, j, Checked(if withETag && !job.sweep then Some(w.eTag(body)) else None, body))
      else To(s, j, Rejecting)
  }

  /** The full read and sanitization of an SVG. */
  function Sanitize(w: World, s: State, j: nat): State {
    if !At(s, j, Headed) || !w.isSvg(s.jobs[j].mime) then s
    else
      var job := s.jobs[j];
      if job.source in s.objects && w.sanitize(s.objects[job.source].bytes).Some?
      then To(s, j, Sanitized(w.sanitize(s.objects[job.source].bytes).value))
      else To(s, j, Rejecting)
  }

  /** `markConfirmedByPublicId`, or for the sweeper `markConfirmedByInternalId`. */
  function Settle(s: State, j: nat): State {
    if !At(s, j, Published) then s
    else
      var job := s.jobs[j];
      if job.row in s.rows && !s.rows[job.row].deleted && (job.sweep ==> s.rows[job.row].status.Pending?) then
        var confirmed := s.rows[job.row].(status := Uploaded, key := StripPendingPrefix(job.source));
        To(s, j, Cleaning).(rows := s.rows[job.row := confirmed])
      else if job.sweep then To(s, j, Cleaning)
      else s.(jobs := s.jobs - {j})
  }

  function Reject(s: State, j: nat): State {
    if !At(s, j, Rejecting) then s
    else
      var job := s.jobs[j];
      s.(jobs := s.jobs - {j},
         rows := if job.row in s.rows && (job.sweep || !s.rows[job.row].deleted)
                 then s.rows[job.row := s.rows[job.row].(status := Failed)]
                 else s.rows)
  }

  function Clean(s: State, j: nat): State {
    if !At(s, j, Cleaning) then s else s.(objects := s.objects - {s.jobs[j].source}, jobs := s.jobs - {j})
  }

  function Discard(s: State, j: nat): State {
    if !At(s, j, Orphaned) then s
    else s.(objects := s.objects - {s.jobs[j].source}, rows := s.rows - {s.jobs[j].row}, jobs := s.jobs - {j})
  }

  function Apply(w: World, c: Config, s: State, e: Event): State {
    match e
    case Tick(d) => s.(now := s.now + d)
    case Create(id, key, mime, size) =>
      if id in s.rows || key in s.issued || IsPendingKey(key) || key in s.objects then s
      else s.(rows := s.rows[id := Row(BuildPendingKey(key), mime, size, s.now, Pending, false)],
              issued := s.issued[key := s.now])
    case CreateLegacy(id, key, mime, size) =>
      if id in s.rows || key in s.issued || IsPendingKey(key) then s
      else s.(rows := s.rows[id := Row(key, mime, size, s.now, Pending, false)])
    case ClientPut(key, content) =>
      if key in s.issued && s.now <= s.issued[key] + c.writeWindow
      then s.(objects := s.objects[BuildPendingKey(key) := content])
      else s
    case ForeignPut(key, content) =>
      if StripPendingPrefix(key) in s.issued then s else s.(objects := s.objects[key := content])
    case RemoveObject(key) => s.(objects := s.objects - {key})
    case SoftDelete(id) =>
      if id in s.rows then s.(rows := s.rows[id := s.rows[id].(deleted := true)]) else s
    case HardDelete(id) => s.(rows := s.rows - {id})
    case Confirm(j, id) =>
      if j in s.jobs || id !in s.rows || s.rows[id].deleted || !s.rows[id].status.Pending? then s
      else s.(jobs := s.jobs[j := ConfirmJob(s.rows[id], id)])
    case Sweep(j, id) =>
      if j in s.jobs || id !in s.rows || s.rows[id].deleted || !s.rows[id].status.Pending?
         || s.now <= s.rows[id].createdAt + c.sweepAge then s
      else s.(jobs := s.jobs[j := SweepJob(w, s.rows[id], id)])
    case Head(j, typeReported) => HeadPending(s, j, typeReported)
    case ReadHeader(j, withETag) => if c.alwaysETag && !withETag then s else CheckHeader(w, s, j, withETag)
    case ReadSvg(j) => Sanitize(w, s, j)
    case Write(j) => if j in s.jobs then Publish(w, s, j) else s
    case MarkConfirmed(j) => Settle(s, j)
    case MarkFailed(j) => Reject(s, j)
    case DropPending(j) => Clean(s, j)
    case DropOrphan(j) => Discard(s, j)
    case Crash(j) => s.(jobs := s.jobs - {j})
  }

  function Exec(w: World, c: Config, es: seq<Event>): State {
    if es == [] then Init() else Apply(w, c, Exec(w, c, es[..|es| - 1]), es[|es| - 1])
  }

  lemma ExecSnoc(w: World, c: Config, es: seq<Event>, e: Event)
    ensures Exec(w, c, es + [e]) == Apply(w, c, Exec(w, c, es), e)
  {
    assert (es + [e])[..|es|] == es;
  }

  // ----- Claims -----

  /** Every object at a final key that was handed out is verified. */
  ghost predicate FinalObjectsVerified(w: World, s: State) {
    forall key :: key in s.issued && key in s.objects ==> Verified(w, s.objects[key])
  }

  /** An UPLOADED row refers to a final key that has been published, never to a pending key. */
  predicate UploadedRowsFinal(s: State) {
    forall id :: id in s.rows && s.rows[id].status.Uploaded? ==>
      !IsPendingKey(s.rows[id].key) && s.rows[id].key in s.published
  }

  // ----- Invariants that need no assumption -----

  predicate Issued(s: State, source: string) {
    IsPendingKey(source) && StripPendingPrefix(source) in s.issued
  }

  predicate RowOk(s: State, r: Row) {
    && (IsPendingKey(r.key) ==>
          Issued(s, r.key) && s.issued[StripPendingPrefix(r.key)] == r.createdAt && !r.status.Uploaded?)
    && (r.status.Uploaded? ==> r.key in s.published)
  }

  predicate JobOk(s: State, job: Job) {
    && (IsPendingKey(job.source) ==> Issued(s, job.source))
    && (!job.phase.Rejecting? ==> IsPendingKey(job.source))
    && (job.phase.Published? ==> StripPendingPrefix(job.source) in s.published)
  }

  predicate Structured(s: State) {
    && (forall key :: key in s.issued ==> !IsPendingKey(key))
    && (forall id :: id in s.rows ==> RowOk(s, s.rows[id]))
    && (forall j :: j in s.jobs ==> JobOk(s, s.jobs[j]))
  }

  predicate OfJob(e: Event) {
    e.Head? || e.ReadHeader? || e.ReadSvg? || e.Write? || e.MarkConfirmed? || e.MarkFailed? || e.DropPending?
    || e.DropOrphan? || e.Crash?
  }

  lemma StructuredOutside(w: World, c: Config, s: State, e: Event)
    requires Structured(s) && !OfJob(e) && !e.Create? && !e.Confirm? && !e.Sweep?
    ensures Structured(Apply(w, c, s, e))
  {
  }

  lemma StructuredStart(w: World, s: State, j: nat, id: nat)
    requires Structured(s) && id in s.rows && s.rows[id].status.Pending?
    ensures Structured(s.(jobs := s.jobs[j := ConfirmJob(s.rows[id], id)]))
    ensures Structured(s.(jobs := s.jobs[j := SweepJob(w, s.rows[id], id)]))
  {
    assert RowOk(s, s.rows[id]);
  }

  lemma StructuredCreate(w: World, c: Config, s: State, e: Event)
    requires Structured(s) && e.Create?
    ensures Structured(Apply(w, c, s, e))
  {
    var s' := Apply(w, c, s, e);
    StripUndoesBuild(e.key);
    forall id | id in s.rows ensures RowOk(s', s.rows[id]) { assert RowOk(s, s.rows[id]); }
    forall j | j in s.jobs ensures JobOk(s', s.jobs[j]) { assert JobOk(s, s.jobs[j]); }
  }

  /** A job moves to a phase that demands nothing new. */
  lemma StructuredTo(s: State, j: nat, p: Phase)
    requires Structured(s) && j in s.jobs && !p.Published? && (p.Rejecting? || !s.jobs[j].phase.Rejecting?)
    ensures Structured(To(s, j, p))
  {
    assert JobOk(s, s.jobs[j]);
  }

  lemma StructuredHead(s: State, j: nat, typeReported: bool)
    requires Structured(s)
    ensures Structured(HeadPending(s, j, typeReported))
  {
    if At(s, j, Loaded) {
      StructuredTo(s, j, Orphaned);
      StructuredTo(s, j, Headed);
      StructuredTo(s, j, Rejecting);
    }
  }

  lemma StructuredCheck(w: World, s: State, j: nat, withETag: bool)
    requires Structured(s)
    ensures Structured(CheckHeader(w, s, j, withETag))
  {
    if At(s, j, Headed) {
      var s' := CheckHeader(w, s, j, withETag);
      StructuredTo(s, j, s'.jobs[j].phase);
      assert To(s, j, Headed) == s;
    }
  }

  lemma StructuredSanitize(w: World, s: State, j: nat)
    requires Structured(s)
    ensures Structured(Sanitize(w, s, j))
  {
    if At(s, j, Headed) {
      var s' := Sanitize(w, s, j);
      StructuredTo(s, j, s'.jobs[j].phase);
      assert To(s, j, Headed) == s;
    }
  }

  lemma StructuredPublish(w: World, s: State, j: nat)
    requires Structured(s) && j in s.jobs
    ensures Structured(Publish(w, s, j))
  {
    var s' := Publish(w, s, j);
    assert s'.rows == s.rows && s'.issued == s.issued && s.published <= s'.published;
    assert JobOk(s, s.jobs[j]);
    forall id | id in s.rows ensures RowOk(s', s.rows[id]) { assert RowOk(s, s.rows[id]); }
    forall k | k in s'.jobs ensures JobOk(s', s'.jobs[k]) { assert JobOk(s, s.jobs[k]); }
  }

  lemma StructuredSettle(s: State, j: nat)
    requires Structured(s)
    ensures Structured(Settle(s, j))
  {
    if j in s.jobs { assert JobOk(s, s.jobs[j]); }
  }

  /** Jobs and rows may leave, and a row may fail. */
  lemma StructuredShrinks(s: State, s': State)
    requires Structured(s) && s'.issued == s.issued && s'.published == s.published
    requires forall j :: j in s'.jobs ==> j in s.jobs && s'.jobs[j] == s.jobs[j]
    requires forall id :: id in s'.rows ==>
      id in s.rows && (s'.rows[id] == s.rows[id] || s'.rows[id] == s.rows[id].(status := Failed))
    ensures Structured(s')
  {
    forall id | id in s'.rows ensures RowOk(s', s'.rows[id]) { assert RowOk(s, s.rows[id]); }
    forall j | j in s'.jobs ensures JobOk(s', s'.jobs[j]) { assert JobOk(s, s.jobs[j]); }
  }

  predicate Reads(e: Event) {
    e.Head? || e.ReadHeader? || e.ReadSvg?
  }

  lemma StructuredRead(w: World, c: Config, s: State, e: Event)
    requires Structured(s) && Reads(e)
    ensures Structured(Apply(w, c, s, e))
  {
    match e
    case Head(j, typeReported) => StructuredHead(s, j, typeReported);
    case ReadHeader(j, withETag) => StructuredCheck(w, s, j, withETag);
    case ReadSvg(j) => StructuredSanitize(w, s, j);
  }

  lemma StructuredWrite(w: World, c: Config, s: State, j: nat)
    requires Structured(s)
    ensures Structured(Apply(w, c, s, Write(j))) && Structured(Apply(w, c, s, MarkConfirmed(j)))
  {
    if j in s.jobs { StructuredPublish(w, s, j); }
    StructuredSettle(s, j);
  }

  lemma StructuredFinish(w: World, c: Config, s: State, e: Event)
    requires Structured(s) && OfJob(e) && !Reads(e) && !e.Write? && !e.MarkConfirmed?
    ensures Structured(Apply(w, c, s, e))
  {
    StructuredShrinks(s, Apply(w, c, s, e));
  }

  lemma {:induction false} AlwaysStructured(w: World, c: Config, es: seq<Event>)
    ensures Structured(Exec(w, c, es))
  {
    if es != [] {
      var s, e := Exec(w, c, es[..|es| - 1]), es[|es| - 1];
      AlwaysStructured(w, c, es[..|es| - 1]);
      if e.Create? { StructuredCreate(w, c, s, e); }
      else if e.Confirm? || e.Sweep? {
        if e.row in s.rows && s.rows[e.row].status.Pending? { StructuredStart(w, s, e.job, e.row); }
      }
      else if e.Write? || e.MarkConfirmed? { StructuredWrite(w, c, s, e.job); }
      else if Reads(e) { StructuredRead(w, c, s, e); }
      else if OfJob(e) { StructuredFinish(w, c, s, e); }
      else { StructuredOutside(w, c, s, e); }
    }
  }

  /** In every run an UPLOADED row refers to a published final key. */
  lemma UploadedRowsAlwaysFinal(w: World, c: Config, es: seq<Event>)
    ensures UploadedRowsFinal(Exec(w, c, es))
  {
    AlwaysStructured(w, c, es);
    var s := Exec(w, c, es);
    forall id | id in s.rows && s.rows[id].status.Uploaded?
      ensures !IsPendingKey(s.rows[id].key) && s.rows[id].key in s.published
    {
      assert RowOk(s, s.rows[id]);
    }
  }

  // ----- Verification survives interference -----

  ghost predicate ETagsIdentifyBytes(w: World) {
    forall a, b :: w.eTag(a) == w.eTag(b) ==> a == b
  }

  predicate Pinned(c: Config) {
    c.alwaysETag && c.writeWindow <= c.sweepAge
  }

  /** What a job past its check may rely on when it writes. */
  ghost predicate JobVerified(w: World, c: Config, s: State, job: Job) {
    && (job.sweep && Issued(s, job.source) ==> s.issued[StripPendingPrefix(job.source)] + c.sweepAge < s.now)
    && match job.phase
       case Checked(eTag, seen) =>
         && Issued(s, job.source)
         && !w.isSvg(job.mime) && w.magic(Header(seen), job.mime)
         && (eTag.Some? ==> eTag.value == w.eTag(seen))
         && (eTag.None? ==> job.sweep && (job.source in s.objects ==> s.objects[job.source].bytes == seen))
       case Sanitized(bytes) => w.isSvg(job.mime) && exists source :: w.sanitize(source) == Some(bytes)
       case _ => true
  }

  ghost predicate Safe(w: World, c: Config, s: State) {
    FinalObjectsVerified(w, s) && forall j :: j in s.jobs ==> JobVerified(w, c, s, s.jobs[j])
  }

  lemma SafeOutside(w: World, c: Config, s: State, e: Event)
    requires Pinned(c) && Structured(s) && Safe(w, c, s) && !OfJob(e)
    requires !e.ClientPut? && !e.Create? && !e.Sweep?
    ensures Safe(w, c, Apply(w, c, s, e))
  {
    var s' := Apply(w, c, s, e);
    forall j | j in s.jobs ensures JobVerified(w, c, s', s.jobs[j]) { assert JobVerified(w, c, s, s.jobs[j]); }
  }

  lemma SafeCreate(w: World, c: Config, s: State, e: Event)
    requires Pinned(c) && Structured(s) && Safe(w, c, s) && e.Create?
    ensures Safe(w, c, Apply(w, c, s, e))
  {
    var s' := Apply(w, c, s, e);
    forall j | j in s.jobs ensures JobVerified(w, c, s', s.jobs[j]) {
      assert JobVerified(w, c, s, s.jobs[j]) && JobOk(s, s.jobs[j]);
    }
  }

  /** A swept row is older than the sweep age, and so is the key it was issued with. */
  lemma SweepJobOld(w: World, c: Config, s: State, id: nat)
    requires Structured(s) && id in s.rows && s.rows[id].createdAt + c.sweepAge < s.now
    ensures JobVerified(w, c, s, SweepJob(w, s.rows[id], id))
  {
    assert RowOk(s, s.rows[id]);
  }

  lemma SafeAddJob(w: World, c: Config, s: State, j: nat, job: Job)
    requires Safe(w, c, s) && j !in s.jobs && JobVerified(w, c, s, job)
    ensures Safe(w, c, s.(jobs := s.jobs[j := job]))
  {
    var s' := s.(jobs := s.jobs[j := job]);
    forall k | k in s'.jobs ensures JobVerified(w, c, s', s'.jobs[k]) {
      if k != j { assert JobVerified(w, c, s, s.jobs[k]); }
    }
  }

  lemma SafeSweepStart(w: World, c: Config, s: State, j: nat, id: nat)
    requires Structured(s) && Safe(w, c, s) && j !in s.jobs && id in s.rows
    requires s.rows[id].createdAt + c.sweepAge < s.now
    ensures Safe(w, c, s.(jobs := s.jobs[j := SweepJob(w, s.rows[id], id)]))
  {
    SweepJobOld(w, c, s, id);
    SafeAddJob(w, c, s, j, SweepJob(w, s.rows[id], id));
  }

  /** A client can only replace pending bytes that no sweep relies on any more. */
  lemma SafeClientPut(w: World, c: Config, s: State, e: Event)
    requires Pinned(c) && Structured(s) && Safe(w, c, s) && e.ClientPut?
    ensures Safe(w, c, Apply(w, c, s, e))
  {
    var s' := Apply(w, c, s, e);
    StripUndoesBuild(e.key);
    forall j | j in s.jobs ensures JobVerified(w, c, s', s.jobs[j]) {
      assert JobVerified(w, c, s, s.jobs[j]);
      StripUndoesBuild(s.jobs[j].source);
    }
  }

  /** A job moves on; what it may then rely on is the caller's to show. */
  lemma SafeTo(w: World, c: Config, s: State, j: nat, p: Phase)
    requires Safe(w, c, s) && j in s.jobs && JobVerified(w, c, s, s.jobs[j].(phase := p))
    ensures Safe(w, c, To(s, j, p))
  {
    var s' := To(s, j, p);
    forall k | k in s'.jobs ensures JobVerified(w, c, s', s'.jobs[k]) {
      if k != j { assert JobVerified(w, c, s, s.jobs[k]); }
    }
  }

  lemma SafeHead(w: World, c: Config, s: State, j: nat, typeReported: bool)
    requires Safe(w, c, s)
    ensures Safe(w, c, HeadPending(s, j, typeReported))
  {
    if At(s, j, Loaded) {
      assert JobVerified(w, c, s, s.jobs[j]);
      SafeTo(w, c, s, j, Orphaned);
      SafeTo(w, c, s, j, Headed);
      SafeTo(w, c, s, j, Rejecting);
    }
  }

  lemma SafeCheck(w: World, c: Config, s: State, j: nat, withETag: bool)
    requires Pinned(c) && Structured(s) && Safe(w, c, s) && withETag
    ensures Safe(w, c, CheckHeader(w, s, j, withETag))
  {
    if At(s, j, Headed) {
      assert JobVerified(w, c, s, s.jobs[j]) && JobOk(s, s.jobs[j]);
      var s' := CheckHeader(w, s, j, withETag);
      assert To(s, j, Headed) == s;
      SafeTo(w, c, s, j, s'.jobs[j].phase);
    }
  }

  lemma SafeSanitize(w: World, c: Config, s: State, j: nat)
    requires Safe(w, c, s)
    ensures Safe(w, c, Sanitize(w, s, j))
  {
    if At(s, j, Headed) {
      assert JobVerified(w, c, s, s.jobs[j]);
      var s' := Sanitize(w, s, j);
      assert To(s, j, Headed) == s;
      SafeTo(w, c, s, j, s'.jobs[j].phase);
    }
  }

  /** Dropping objects or jobs, and changing rows, loses no verification. */
  lemma SafeShrinks(w: World, c: Config, s: State, s': State)
    requires Safe(w, c, s) && s'.issued == s.issued && s'.now == s.now
    requires forall key :: key in s'.objects ==> key in s.objects && s'.objects[key] == s.objects[key]
    requires forall j :: j in s'.jobs ==>
      j in s.jobs && (s'.jobs[j] == s.jobs[j] || s'.jobs[j] == s.jobs[j].(phase := Cleaning))
    ensures Safe(w, c, s')
  {
    forall j | j in s'.jobs ensures JobVerified(w, c, s', s'.jobs[j]) { assert JobVerified(w, c, s, s.jobs[j]); }
  }

  lemma SafePublish(w: World, c: Config, s: State, j: nat)
    requires ETagsIdentifyBytes(w) && Pinned(c) && Structured(s) && Safe(w, c, s) && j in s.jobs
    ensures Safe(w, c, Publish(w, s, j))
  {
    var s' := Publish(w, s, j);
    assert JobVerified(w, c, s, s.jobs[j]) && JobOk(s, s.jobs[j]);
    forall k | k in s.jobs && k != j ensures JobVerified(w, c, s', s.jobs[k]) {
      assert JobVerified(w, c, s, s.jobs[k]);
    }
  }

  lemma SafeRead(w: World, c: Config, s: State, e: Event)
    requires Pinned(c) && Structured(s) && Safe(w, c, s) && Reads(e)
    ensures Safe(w, c, Apply(w, c, s, e))
  {
    match e
    case Head(j, typeReported) => SafeHead(w, c, s, j, typeReported);
    case ReadHeader(j, withETag) => if withETag { SafeCheck(w, c, s, j, withETag); }
    case ReadSvg(j) => SafeSanitize(w, c, s, j);
  }

  lemma SafeSettle(w: World, c: Config, s: State, j: nat)
    requires Safe(w, c, s)
    ensures Safe(w, c, Settle(s, j)) && Safe(w, c, Reject(s, j))
  {
    SafeShrinks(w, c, s, Settle(s, j));
    SafeShrinks(w, c, s, Reject(s, j));
  }

  lemma SafeClean(w: World, c: Config, s: State, j: nat)
    requires Safe(w, c, s)
    ensures Safe(w, c, Clean(s, j)) && Safe(w, c, Discard(s, j)) && Safe(w, c, s.(jobs := s.jobs - {j}))
  {
    SafeShrinks(w, c, s, Clean(s, j));
    SafeShrinks(w, c, s, Discard(s, j));
    SafeShrinks(w, c, s, s.(jobs := s.jobs - {j}));
  }

  lemma SafeFinish(w: World, c: Config, s: State, e: Event)
    requires Safe(w, c, s) && OfJob(e) && !Reads(e) && !e.Write?
    ensures Safe(w, c, Apply(w, c, s, e))
  {
    if e.MarkConfirmed? || e.MarkFailed? { SafeSettle(w, c, s, e.job); } else { SafeClean(w, c, s, e.job); }
  }

  lemma {:induction false} AlwaysSafe(w: World, c: Config, es: seq<Event>)
    requires ETagsIdentifyBytes(w) && Pinned(c)
    ensures Safe(w, c, Exec(w, c, es))
  {
    if es != [] {
      var s, e := Exec(w, c, es[..|es| - 1]), es[|es| - 1];
      AlwaysSafe(w, c, es[..|es| - 1]);
      AlwaysStructured(w, c, es[..|es| - 1]);
      if e.Create? { SafeCreate(w, c, s, e); }
      else if e.Sweep? {
        if e.job !in s.jobs && e.row in s.rows && s.rows[e.row].createdAt + c.sweepAge < s.now {
          SafeSweepStart(w, c, s, e.job, e.row);
        }
      }
      else if e.ClientPut? { SafeClientPut(w, c, s, e); }
      else if e.Write? { if e.job in s.jobs { SafePublish(w, c, s, e.job); } }
      else if Reads(e) { SafeRead(w, c, s, e); }
      else if OfJob(e) { SafeFinish(w, c, s, e); }
      else { SafeOutside(w, c, s, e); }
    }
  }

  // ----- Main theorem -----

  /** The content type is header-checked, and the check tells `good` from `bad`. */
  predicate Discriminates(w: World, mime: string, good: Bytes, bad: Bytes) {
    !w.isSvg(mime) && w.isVerifiable(mime) && w.magic(Header(good), mime) && !w.magic(Header(bad), mime)
  }

  /** A reservation, and the client's upload of good bytes. */
  function UploadRun(key: string, mime: string, good: Bytes): seq<Event> {
    [Create(0, key, mime, |good|), ClientPut(key, Object(good, mime))]
  }

  /** Without an ETag the bytes may change between the header check and the copy. */
  function UnpinnedRun(key: string, mime: string, good: Bytes, bad: Bytes): seq<Event> {
    UploadRun(key, mime, good) + [Confirm(0, 0)] + [Head(0, true)] + [ReadHeader(0, false)]
    + [ClientPut(key, Object(bad, mime))] + [Write(0)]
  }

  /** With a write window longer than the sweep age they may change during a sweep. */
  function LateWriteRun(c: Config, key: string, mime: string, good: Bytes, bad: Bytes): seq<Event> {
    UploadRun(key, mime, good) + [Tick(c.sweepAge + 1)] + [Sweep(0, 0)] + [Head(0, true)] + [ReadHeader(0, true)]
    + [ClientPut(key, Object(bad, mime))] + [Write(0)]
  }

  /** A job has checked `good`, its copy is not pinned, and the client can still write. */
  predicate Exposed(c: Config, s: State, key: string, mime: string, good: Bytes) {
    && 0 in s.jobs && s.jobs[0].source == BuildPendingKey(key) && s.jobs[0].mime == mime
    && s.jobs[0].phase == Checked(None, good)
    && key in s.issued && s.now <= s.issued[key] + c.writeWindow
  }

  lemma ExposedFails(w: World, c: Config, es: seq<Event>, key: string, mime: string, good: Bytes, bad: Bytes)
    requires !IsPendingKey(key) && Discriminates(w, mime, good, bad) && Exposed(c, Exec(w, c, es), key, mime, good)
    ensures !FinalObjectsVerified(w, Exec(w, c, es + [ClientPut(key, Object(bad, mime))] + [Write(0)]))
  {
    StripUndoesBuild(key);
    ExecSnoc(w, c, es, ClientPut(key, Object(bad, mime)));
    ExecSnoc(w, c, es + [ClientPut(key, Object(bad, mime))], Write(0));
    var s := Exec(w, c, es + [ClientPut(key, Object(bad, mime))] + [Write(0)]);
    assert s.objects[key] == Object(bad, mime);
  }

  function AfterUpload(key: string, mime: string, good: Bytes): State {
    State(0, map[BuildPendingKey(key) := Object(good, mime)],
          map[0 := Row(BuildPendingKey(key), mime, |good|, 0, Pending, false)], map[], map[key := 0], {})
  }

  lemma UploadedState(w: World, c: Config, key: string, mime: string, good: Bytes)
    requires !IsPendingKey(key)
    ensures Exec(w, c, UploadRun(key, mime, good)) == AfterUpload(key, mime, good)
  {
    var e, f := Create(0, key, mime, |good|), ClientPut(key, Object(good, mime));
    ExecSnoc(w, c, [], e);
    ExecSnoc(w, c, [e], f);
    assert [] + [e] == [e] && [e] + [f] == [e, f];
  }

  /** From the start of a job over good bytes to the point where its copy is exposed. */
  lemma CheckExposes(w: World, c: Config, es: seq<Event>, key: string, mime: string, good: Bytes, sweep: bool)
    requires !w.isSvg(mime) && w.isVerifiable(mime) && w.magic(Header(good), mime)
    requires var s := Exec(w, c, es); var source := BuildPendingKey(key);
             && 0 in s.jobs && s.jobs[0] == Job(0, source, mime, |good|, sweep, Loaded)
             && source in s.objects && s.objects[source] == Object(good, mime)
             && key in s.issued && s.now <= s.issued[key] + c.writeWindow
    requires sweep || !c.alwaysETag
    ensures Exposed(c, Exec(w, c, es + [Head(0, true)] + [ReadHeader(0, sweep)]), key, mime, good)
  {
    ExecSnoc(w, c, es, Head(0, true));
    ExecSnoc(w, c, es + [Head(0, true)], ReadHeader(0, sweep));
  }

  lemma UnpinnedRunFails(w: World, c: Config, key: string, mime: string, good: Bytes, bad: Bytes)
    requires !IsPendingKey(key) && Discriminates(w, mime, good, bad) && !c.alwaysETag
    ensures !FinalObjectsVerified(w, Exec(w, c, UnpinnedRun(key, mime, good, bad)))
  {
    var p2 := UploadRun(key, mime, good);
    UploadedState(w, c, key, mime, good);
    StripUndoesBuild(key);
    ExecSnoc(w, c, p2, Confirm(0, 0));
    var p3 := p2 + [Confirm(0, 0)];
    CheckExposes(w, c, p3, key, mime, good, false);
    ExposedFails(w, c, p3 + [Head(0, true)] + [ReadHeader(0, false)], key, mime, good, bad);
  }

  lemma LateSweepLoads(w: World, c: Config, es: seq<Event>, key: string, mime: string, good: Bytes)
    requires !w.isSvg(mime) && !IsPendingKey(key)
    requires Exec(w, c, es) == AfterUpload(key, mime, good)
    ensures var s := Exec(w, c, es + [Tick(c.sweepAge + 1)] + [Sweep(0, 0)]); var source := BuildPendingKey(key);
            && 0 in s.jobs && s.jobs[0] == Job(0, source, mime, |good|, true, Loaded)
            && s.objects == map[source := Object(good, mime)] && s.issued == map[key := 0] && s.now == c.sweepAge + 1
  {
    StripUndoesBuild(key);
    ExecSnoc(w, c, es, Tick(c.sweepAge + 1));
    ExecSnoc(w, c, es + [Tick(c.sweepAge + 1)], Sweep(0, 0));
  }

  lemma LateSweepExposes(w: World, c: Config, key: string, mime: string, good: Bytes) returns (run: seq<Event>)
    requires !w.isSvg(mime) && w.isVerifiable(mime) && w.magic(Header(good), mime) && !IsPendingKey(key)
    requires c.sweepAge < c.writeWindow
    ensures run ==
            UploadRun(key, mime, good) + [Tick(c.sweepAge + 1)] + [Sweep(0, 0)] + [Head(0, true)]
            + [ReadHeader(0, true)]
    ensures Exposed(c, Exec(w, c, run), key, mime, good)
  {
    var uploaded := UploadRun(key, mime, good);
    UploadedState(w, c, key, mime, good);
    LateSweepLoads(w, c, uploaded, key, mime, good);
    run := uploaded + [Tick(c.sweepAge + 1)] + [Sweep(0, 0)];
    CheckExposes(w, c, run, key, mime, good, true);
    run := run + [Head(0, true)] + [ReadHeader(0, true)];
  }

  lemma LateWriteRunFails(w: World, c: Config, key: string, mime: string, good: Bytes, bad: Bytes)
    requires !IsPendingKey(key) && Discriminates(w, mime, good, bad) && c.sweepAge < c.writeWindow
    ensures !FinalObjectsVerified(w, Exec(w, c, LateWriteRun(c, key, mime, good, bad)))
  {
    var run := LateSweepExposes(w, c, key, mime, good);
    ExposedFails(w, c, run, key, mime, good, bad);
  }

  /** Every object ever present at a final key is verified, whatever the client writes and however
      jobs interleave or die, exactly when storage returns ETags and a presigned URL stops writing
      before the sweeper may take its row. */
  lemma FinalObjectsVerifiedExactlyWhenPinned(w: World, c: Config, mime: string, good: Bytes, bad: Bytes)
    requires ETagsIdentifyBytes(w) && Discriminates(w, mime, good, bad)
    ensures (forall es :: FinalObjectsVerified(w, Exec(w, c, es))) <==> c.alwaysETag && c.writeWindow <= c.sweepAge
  {
    if Pinned(c) {
      forall es ensures FinalObjectsVerified(w, Exec(w, c, es)) { AlwaysSafe(w, c, es); }
    } else if !c.alwaysETag {
      UnpinnedRunFails(w, c, "k", mime, good, bad);
    } else {
      LateWriteRunFails(w, c, "k", mime, good, bad);
    }
  }
}
