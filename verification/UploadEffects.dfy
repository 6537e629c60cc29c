/**
 What a confirmation, or the sweep of one row, does when nothing interferes: after any history, and
 for every outcome of its checks, exactly the rows and objects it leaves.
 */
module UploadEffects {
  import opened Prelude
  import opened UploadPublish

  /** `s` with one more job. */
  function WithJob(s: State, j: nat, job: Job): State {
    s.(jobs := s.jobs[j := job])
  }

  /** The pending object exists with the declared size and, if storage reports one, content type, and
      its bytes pass the check of its type. */
  predicate Accepted(w: World, objects: map<string, Object>, r: Row, typeReported: bool) {
    && PENDING_PREFIX <= r.key && r.key in objects
    && |objects[r.key].bytes| == r.size
    && (typeReported ==> objects[r.key].contentType == r.mime)
    && (w.isSvg(r.mime) ==> w.sanitize(objects[r.key].bytes).Some?)
    && (!w.isSvg(r.mime) && w.isVerifiable(r.mime) ==> w.magic(Header(objects[r.key].bytes), r.mime))
  }

  /** The object that is then served: the uploaded bytes, sanitized for an SVG. */
  function Served(w: World, bytes: Bytes, mime: string): Object {
    if w.isSvg(mime) && w.sanitize(bytes).Some? then Object(w.sanitize(bytes).value, mime) else Object(bytes, mime)
  }

  function Final(key: string): string
    requires PENDING_PREFIX <= key
  {
    key[|PENDING_PREFIX|..]
  }

  /** The rows and objects after an accepted confirmation. */
  function Confirmed(w: World, s: State, id: nat): State
    requires id in s.rows && s.rows[id].key in s.objects && PENDING_PREFIX <= s.rows[id].key
  {
    var r := s.rows[id];
    s.(rows := s.rows[id := Row(Final(r.key), r.mime, r.size, r.createdAt, Uploaded, r.deleted)],
       objects := s.objects[Final(r.key) := Served(w, s.objects[r.key].bytes, r.mime)] - {r.key},
       published := s.published + {Final(r.key)})
  }

  function Rejected(s: State, id: nat): State
    requires id in s.rows
  {
    var r := s.rows[id];
    s.(rows := s.rows[id := Row(r.key, r.mime, r.size, r.createdAt, Failed, r.deleted)])
  }

  // ----- One step at a time -----

  lemma Advances(w: World, c: Config, es: seq<Event>, e: Event, s: State)
    requires Apply(w, c, Exec(w, c, es), e) == s
    ensures Exec(w, c, es + [e]) == s
  {
    ExecSnoc(w, c, es, e);
  }

  /** An event of a job that is gone, or of one in another phase. */
  predicate Idle(s: State, e: Event) {
    && OfJob(e) && !e.Crash?
    && (e.job in s.jobs ==>
          var phase := s.jobs[e.job].phase;
          && (phase.Rejecting? ==> !e.MarkFailed?) && (phase.Cleaning? ==> !e.DropPending?)
          && (phase.Orphaned? ==> !e.DropOrphan?) && (phase.Rejecting? || phase.Cleaning? || phase.Orphaned?))
  }

  lemma Stays(w: World, c: Config, es: seq<Event>, e: Event)
    requires Idle(Exec(w, c, es), e)
    ensures Exec(w, c, es + [e]) == Exec(w, c, es)
  {
    ExecSnoc(w, c, es, e);
  }

  lemma HeadStage(s: State, j: nat, job: Job, typeReported: bool)
    requires job.phase.Loaded? && !(job.sweep && job.source !in s.objects)
    ensures HeadPending(WithJob(s, j, job), j, typeReported) ==
            WithJob(s, j, job.(phase := if HeadMatches(s, job, typeReported) then Headed else Rejecting))
  {
  }

  /** The header's verdict on a type that has one. */
  lemma HeaderStage(w: World, s: State, j: nat, job: Job, withETag: bool)
    requires job.phase.Headed? && !w.isSvg(job.mime) && w.isVerifiable(job.mime) && job.source in s.objects
    ensures var bytes := s.objects[job.source].bytes;
            CheckHeader(w, WithJob(s, j, job), j, withETag) ==
            WithJob(s, j, job.(phase :=
              if w.magic(Header(bytes), job.mime)
              then Checked(if withETag && !job.sweep then Some(w.eTag(bytes)) else None, bytes) else Rejecting))
  {
  }

  lemma SvgStage(w: World, s: State, j: nat, job: Job)
    requires job.phase.Headed? && w.isSvg(job.mime) && job.source in s.objects
    ensures var sanitized := w.sanitize(s.objects[job.source].bytes);
            Sanitize(w, WithJob(s, j, job), j) ==
            WithJob(s, j, job.(phase := if sanitized.Some? then Sanitized(sanitized.value) else Rejecting))
  {
  }

  /** Past its checks, with the object it checked still in place. */
  predicate Ready(w: World, s: State, job: Job) {
    && job.source in s.objects && PENDING_PREFIX <= job.source
    && match job.phase
       case Sanitized(bytes) => w.isSvg(job.mime) && w.sanitize(s.objects[job.source].bytes) == Some(bytes)
       case Checked(eTag, _) => !w.isSvg(job.mime) && (eTag.Some? ==> eTag.value == w.eTag(s.objects[job.source].bytes))
       case Headed => !w.isSvg(job.mime) && !w.isVerifiable(job.mime)
       case _ => false
  }

  /** The read of an SVG; its header is not looked at. */
  lemma SvgReads(w: World, c: Config, es: seq<Event>, s: State, j: nat, job: Job, withETag: bool) returns (read: Job)
    requires Exec(w, c, es) == WithJob(s, j, job) && (withETag || !c.alwaysETag) && w.isSvg(job.mime)
    requires job.phase.Headed? && job.source in s.objects && PENDING_PREFIX <= job.source
    ensures Exec(w, c, es + [ReadHeader(j, withETag)] + [ReadSvg(j)]) == WithJob(s, j, read)
    ensures read == job.(phase := read.phase)
    ensures if Passes(w, s.objects[job.source].bytes, job.mime) then Ready(w, s, read) else read.phase.Rejecting?
  {
    var sanitized := w.sanitize(s.objects[job.source].bytes);
    read := job.(phase := if sanitized.Some? then Sanitized(sanitized.value) else Rejecting);
    Advances(w, c, es, ReadHeader(j, withETag), WithJob(s, j, job));
    SvgStage(w, s, j, job);
    Advances(w, c, es + [ReadHeader(j, withETag)], ReadSvg(j), WithJob(s, j, read));
  }

  /** The header read, if the type has one, of anything else. */
  lemma HeaderReads(w: World, c: Config, es: seq<Event>, s: State, j: nat, job: Job, withETag: bool)
    returns (read: Job)
    requires Exec(w, c, es) == WithJob(s, j, job) && (withETag || !c.alwaysETag) && !w.isSvg(job.mime)
    requires job.phase.Headed? && job.source in s.objects && PENDING_PREFIX <= job.source
    ensures Exec(w, c, es + [ReadHeader(j, withETag)] + [ReadSvg(j)]) == WithJob(s, j, read)
    ensures read == job.(phase := read.phase)
    ensures if Passes(w, s.objects[job.source].bytes, job.mime) then Ready(w, s, read) else read.phase.Rejecting?
  {
    var bytes := s.objects[job.source].bytes;
    read := job;
    if w.isVerifiable(job.mime) {
      HeaderStage(w, s, j, job, withETag);
      var eTag := if withETag && !job.sweep then Some(w.eTag(bytes)) else None;
      read := job.(phase := if w.magic(Header(bytes), job.mime) then Checked(eTag, bytes) else Rejecting);
    }
    Advances(w, c, es, ReadHeader(j, withETag), WithJob(s, j, read));
    SkipsSvg(w, c, es + [ReadHeader(j, withETag)], j);
  }

  lemma SkipsSvg(w: World, c: Config, es: seq<Event>, j: nat)
    requires var s := Exec(w, c, es); j in s.jobs && !w.isSvg(s.jobs[j].mime)
    ensures Exec(w, c, es + [ReadSvg(j)]) == Exec(w, c, es)
  {
    ExecSnoc(w, c, es, ReadSvg(j));
  }

  /** The check of the content type, on the bytes alone. */
  predicate Passes(w: World, bytes: Bytes, mime: string) {
    && (w.isSvg(mime) ==> w.sanitize(bytes).Some?)
    && (!w.isSvg(mime) && w.isVerifiable(mime) ==> w.magic(Header(bytes), mime))
  }

  /** The write publishes what is served, and nothing else changes. */
  lemma WriteStage(w: World, s: State, j: nat, job: Job)
    requires Ready(w, s, job)
    ensures Publish(w, WithJob(s, j, job), j) ==
            WithJob(s.(objects := s.objects[Final(job.source) := Served(w, s.objects[job.source].bytes, job.mime)],
                       published := s.published + {Final(job.source)}),
                    j, job.(phase := Published))
  {
  }

  lemma SettleStage(s: State, j: nat, job: Job)
    requires job.phase.Published? && PENDING_PREFIX <= job.source
    requires job.row in s.rows && !s.rows[job.row].deleted && s.rows[job.row].status.Pending?
    ensures var r := s.rows[job.row];
            Settle(WithJob(s, j, job), j) ==
            WithJob(s.(rows := s.rows[job.row := Row(Final(job.source), r.mime, r.size, r.createdAt, Uploaded, false)]),
                    j, job.(phase := Cleaning))
  {
  }

  lemma RejectStage(s: State, j: nat, job: Job)
    requires job.phase.Rejecting? && j !in s.jobs && job.row in s.rows && !s.rows[job.row].deleted
    ensures Reject(WithJob(s, j, job), j) == Rejected(s, job.row)
  {
    assert WithJob(s, j, job).jobs - {j} == s.jobs;
  }

  lemma CleanStage(s: State, j: nat, job: Job)
    requires job.phase.Cleaning? && j !in s.jobs
    ensures Clean(WithJob(s, j, job), j) == s.(objects := s.objects - {job.source})
  {
    assert WithJob(s, j, job).jobs - {j} == s.jobs;
  }

  lemma OrphanStage(s: State, j: nat, job: Job)
    requires job.phase.Orphaned? && j !in s.jobs && job.source !in s.objects
    ensures Discard(WithJob(s, j, job), j) == s.(rows := s.rows - {job.row})
  {
    assert WithJob(s, j, job).jobs - {j} == s.jobs;
    assert s.objects - {job.source} == s.objects;
  }

  // ----- The end of a job -----

  /** The events after a job's reads; those its outcome does not call for do nothing. */
  function Ending(es: seq<Event>, j: nat): seq<Event> {
    es + [Write(j)] + [MarkConfirmed(j)] + [MarkFailed(j)] + [DropPending(j)] + [DropOrphan(j)]
  }

  /** A job that wrote, and its row, which nothing has touched. */
  lemma PublishEnds(w: World, c: Config, es: seq<Event>, s: State, j: nat, job: Job)
    requires Exec(w, c, es) == WithJob(s, j, job) && Ready(w, s, job) && j !in s.jobs
    requires job.row in s.rows && !s.rows[job.row].deleted && s.rows[job.row].status.Pending?
    requires s.rows[job.row].key == job.source && s.rows[job.row].mime == job.mime
    ensures Exec(w, c, Ending(es, j)) == Confirmed(w, s, job.row)
  {
    var r, final := s.rows[job.row], Final(job.source);
    var s1 := s.(objects := s.objects[final := Served(w, s.objects[job.source].bytes, job.mime)],
                 published := s.published + {final});
    WriteStage(w, s, j, job);
    Advances(w, c, es, Write(j), WithJob(s1, j, job.(phase := Published)));
    var s2 := s1.(rows := s.rows[job.row := Row(final, r.mime, r.size, r.createdAt, Uploaded, false)]);
    SettleStage(s1, j, job.(phase := Published));
    Advances(w, c, es + [Write(j)], MarkConfirmed(j), WithJob(s2, j, job.(phase := Cleaning)));
    CleanEnds(w, c, es + [Write(j)] + [MarkConfirmed(j)], s2, j, job.(phase := Cleaning));
  }

  lemma CleanEnds(w: World, c: Config, es: seq<Event>, s: State, j: nat, job: Job)
    requires Exec(w, c, es) == WithJob(s, j, job) && job.phase.Cleaning? && j !in s.jobs
    ensures Exec(w, c, es + [MarkFailed(j)] + [DropPending(j)] + [DropOrphan(j)]) ==
            s.(objects := s.objects - {job.source})
  {
    Stays(w, c, es, MarkFailed(j));
    CleanStage(s, j, job);
    Advances(w, c, es + [MarkFailed(j)], DropPending(j), s.(objects := s.objects - {job.source}));
    Stays(w, c, es + [MarkFailed(j)] + [DropPending(j)], DropOrphan(j));
  }

  lemma RejectEnds(w: World, c: Config, es: seq<Event>, s: State, j: nat, job: Job)
    requires Exec(w, c, es) == WithJob(s, j, job) && job.phase.Rejecting? && j !in s.jobs
    requires job.row in s.rows && !s.rows[job.row].deleted
    ensures Exec(w, c, Ending(es, j)) == Rejected(s, job.row)
  {
    Stays(w, c, es, Write(j));
    Stays(w, c, es + [Write(j)], MarkConfirmed(j));
    var es2 := es + [Write(j)] + [MarkConfirmed(j)];
    RejectStage(s, j, job);
    Advances(w, c, es2, MarkFailed(j), Rejected(s, job.row));
    Stays(w, c, es2 + [MarkFailed(j)], DropPending(j));
    Stays(w, c, es2 + [MarkFailed(j)] + [DropPending(j)], DropOrphan(j));
  }

  lemma OrphanEnds(w: World, c: Config, es: seq<Event>, s: State, j: nat, job: Job)
    requires Exec(w, c, es) == WithJob(s, j, job) && job.phase.Orphaned? && j !in s.jobs && job.source !in s.objects
    ensures Exec(w, c, Ending(es, j)) == s.(rows := s.rows - {job.row})
  {
    Stays(w, c, es, Write(j));
    Stays(w, c, es + [Write(j)], MarkConfirmed(j));
    var es2 := es + [Write(j)] + [MarkConfirmed(j)];
    Stays(w, c, es2, MarkFailed(j));
    Stays(w, c, es2 + [MarkFailed(j)], DropPending(j));
    OrphanStage(s, j, job);
    Advances(w, c, es2 + [MarkFailed(j)] + [DropPending(j)], DropOrphan(j), s.(rows := s.rows - {job.row}));
  }

  // ----- The whole job -----

  /** All the events of one job that has been taken up. */
  function JobRun(es: seq<Event>, j: nat, typeReported: bool, withETag: bool): seq<Event> {
    Ending(es + [Head(j, typeReported)] + [ReadHeader(j, withETag)] + [ReadSvg(j)], j)
  }

  lemma SkipsReads(w: World, c: Config, es: seq<Event>, j: nat, withETag: bool)
    requires var s := Exec(w, c, es); j in s.jobs && (s.jobs[j].phase.Rejecting? || s.jobs[j].phase.Orphaned?)
    ensures Exec(w, c, es + [ReadHeader(j, withETag)] + [ReadSvg(j)]) == Exec(w, c, es)
  {
    Stays(w, c, es, ReadHeader(j, withETag));
    Stays(w, c, es + [ReadHeader(j, withETag)], ReadSvg(j));
  }

  lemma JobRejected(w: World, c: Config, es: seq<Event>, s: State, j: nat, job: Job, t: bool, withETag: bool)
    requires Exec(w, c, es) == WithJob(s, j, job) && j !in s.jobs && job.row in s.rows && !s.rows[job.row].deleted
    requires job.phase.Rejecting? ||
             (job.phase.Loaded? && !HeadMatches(s, job, t) && !(job.sweep && job.source !in s.objects))
    ensures Exec(w, c, JobRun(es, j, t, withETag)) == Rejected(s, job.row)
  {
    var rejected := job.(phase := Rejecting);
    if job.phase.Loaded? { HeadStage(s, j, job, t); }
    Advances(w, c, es, Head(j, t), WithJob(s, j, rejected));
    SkipsReads(w, c, es + [Head(j, t)], j, withETag);
    RejectEnds(w, c, es + [Head(j, t)] + [ReadHeader(j, withETag)] + [ReadSvg(j)], s, j, rejected);
  }

  lemma JobOrphaned(w: World, c: Config, es: seq<Event>, s: State, j: nat, job: Job, t: bool, withETag: bool)
    requires Exec(w, c, es) == WithJob(s, j, job) && j !in s.jobs
    requires job.phase.Loaded? && job.sweep && job.source !in s.objects
    ensures Exec(w, c, JobRun(es, j, t, withETag)) == s.(rows := s.rows - {job.row})
  {
    var orphan := job.(phase := Orphaned);
    Advances(w, c, es, Head(j, t), WithJob(s, j, orphan));
    SkipsReads(w, c, es + [Head(j, t)], j, withETag);
    OrphanEnds(w, c, es + [Head(j, t)] + [ReadHeader(j, withETag)] + [ReadSvg(j)], s, j, orphan);
  }

  lemma JobChecked(w: World, c: Config, es: seq<Event>, s: State, j: nat, job: Job, t: bool, withETag: bool)
    requires Exec(w, c, es) == WithJob(s, j, job) && j !in s.jobs && (withETag || !c.alwaysETag)
    requires job.row in s.rows && !s.rows[job.row].deleted && s.rows[job.row].status.Pending?
    requires s.rows[job.row].key == job.source && s.rows[job.row].mime == job.mime && PENDING_PREFIX <= job.source
    requires job.phase.Loaded? && HeadMatches(s, job, t)
    ensures Exec(w, c, JobRun(es, j, t, withETag)) ==
            if Passes(w, s.objects[job.source].bytes, job.mime) then Confirmed(w, s, job.row) else Rejected(s, job.row)
  {
    HeadStage(s, j, job, t);
    Advances(w, c, es, Head(j, t), WithJob(s, j, job.(phase := Headed)));
    var read;
    if w.isSvg(job.mime) { read := SvgReads(w, c, es + [Head(j, t)], s, j, job.(phase := Headed), withETag); }
    else { read := HeaderReads(w, c, es + [Head(j, t)], s, j, job.(phase := Headed), withETag); }
    var es3 := es + [Head(j, t)] + [ReadHeader(j, withETag)] + [ReadSvg(j)];
    if Passes(w, s.objects[job.source].bytes, job.mime) {
      PublishEnds(w, c, es3, s, j, read);
    } else {
      RejectEnds(w, c, es3, s, j, read);
    }
  }

  /** After any history, an undisturbed confirmation of a pending row marks it UPLOADED at its final
      key, publishes there exactly what is to be served and removes the pending object, if the object
      is accepted; otherwise it marks the row FAILED. Nothing else changes. */
  lemma ConfirmationExactly(w: World, c: Config, es: seq<Event>, j: nat, id: nat, typeReported: bool, withETag: bool)
    requires withETag || !c.alwaysETag
    requires var s := Exec(w, c, es);
             j !in s.jobs && id in s.rows && !s.rows[id].deleted && s.rows[id].status.Pending?
    ensures var s, s' := Exec(w, c, es), Exec(w, c, JobRun(es + [Confirm(j, id)], j, typeReported, withETag));
            s' == if Accepted(w, s.objects, s.rows[id], typeReported) then Confirmed(w, s, id) else Rejected(s, id)
  {
    var s := Exec(w, c, es);
    var job := ConfirmJob(s.rows[id], id);
    Advances(w, c, es, Confirm(j, id), WithJob(s, j, job));
    if job.phase.Loaded? && HeadMatches(s, job, typeReported) {
      JobChecked(w, c, es + [Confirm(j, id)], s, j, job, typeReported, withETag);
    } else {
      JobRejected(w, c, es + [Confirm(j, id)], s, j, job, typeReported, withETag);
    }
  }

  /** A whole upload, after any history: reserve, put, confirm. */
  function UploadAndConfirm(
    es: seq<Event>, j: nat, id: nat, key: string, mime: string, size: nat, content: Object, t: bool, withETag: bool)
    : seq<Event>
  {
    JobRun(es + [Create(id, key, mime, size)] + [ClientPut(key, content)] + [Confirm(j, id)], j, t, withETag)
  }

  lemma PutState(
    w: World, c: Config, es: seq<Event>, id: nat, key: string, mime: string, size: nat, content: Object)
    requires var s := Exec(w, c, es);
             id !in s.rows && key !in s.issued && key !in s.objects && !(PENDING_PREFIX <= key)
    ensures var s := Exec(w, c, es);
            Exec(w, c, es + [Create(id, key, mime, size)] + [ClientPut(key, content)]) ==
            s.(rows := s.rows[id := Row(PENDING_PREFIX + key, mime, size, s.now, Pending, false)],
               issued := s.issued[key := s.now], objects := s.objects[PENDING_PREFIX + key := content])
  {
    ExecSnoc(w, c, es, Create(id, key, mime, size));
    ExecSnoc(w, c, es + [Create(id, key, mime, size)], ClientPut(key, content));
  }

  /** The two outcomes of confirming what was just put. */
  lemma PutOutcome(
    w: World, s: State, u: State, id: nat, key: string, mime: string, size: nat, content: Object, t: bool)
    requires u.rows == s.rows[id := Row(PENDING_PREFIX + key, mime, size, s.now, Pending, false)]
    requires u.objects == s.objects[PENDING_PREFIX + key := content]
    ensures Accepted(w, u.objects, u.rows[id], t) <==>
            |content.bytes| == size && (t ==> content.contentType == mime) && Passes(w, content.bytes, mime)
    ensures Confirmed(w, u, id).rows == s.rows[id := Row(key, mime, size, s.now, Uploaded, false)]
    ensures Confirmed(w, u, id).objects == s.objects[key := Served(w, content.bytes, mime)] - {PENDING_PREFIX + key}
    ensures Rejected(u, id).rows == s.rows[id := Row(PENDING_PREFIX + key, mime, size, s.now, Failed, false)]
    ensures Rejected(u, id).objects == s.objects[PENDING_PREFIX + key := content]
  {
    assert Final(PENDING_PREFIX + key) == key;
  }

  /** The uploaded object of the declared size and type is served at its final key by an UPLOADED row
      exactly when its bytes pass their check; otherwise the row is FAILED and nothing is served. */
  lemma UploadIsServedExactlyWhenAccepted(
    w: World, c: Config, es: seq<Event>, j: nat, id: nat, key: string, mime: string, size: nat, content: Object,
    t: bool, withETag: bool)
    requires withETag || !c.alwaysETag
    requires var s := Exec(w, c, es);
             j !in s.jobs && id !in s.rows && key !in s.issued && key !in s.objects && !(PENDING_PREFIX <= key)
    ensures var s, pending := Exec(w, c, es), PENDING_PREFIX + key;
            var s' := Exec(w, c, UploadAndConfirm(es, j, id, key, mime, size, content, t, withETag));
            if |content.bytes| == size && (t ==> content.contentType == mime) && Passes(w, content.bytes, mime) then
              && s'.rows == s.rows[id := Row(key, mime, size, s.now, Uploaded, false)]
              && s'.objects == s.objects[key := Served(w, content.bytes, mime)] - {pending}
            else
              && s'.rows == s.rows[id := Row(pending, mime, size, s.now, Failed, false)]
              && s'.objects == s.objects[pending := content]
  {
    PutState(w, c, es, id, key, mime, size, content);
    var put := es + [Create(id, key, mime, size)] + [ClientPut(key, content)];
    ConfirmationExactly(w, c, put, j, id, t, withETag);
    PutOutcome(w, Exec(w, c, es), Exec(w, c, put), id, key, mime, size, content, t);
  }

  /** A row from before pending keys is never published, whatever lies at its key. */
  lemma LegacyRowIsRefused(
    w: World, c: Config, es: seq<Event>, j: nat, id: nat, key: string, mime: string, size: nat, t: bool)
    requires var s := Exec(w, c, es);
             j !in s.jobs && id !in s.rows && key !in s.issued && !(PENDING_PREFIX <= key)
    ensures var s := Exec(w, c, es);
            Exec(w, c, JobRun(es + [CreateLegacy(id, key, mime, size)] + [Confirm(j, id)], j, t, true)) ==
            s.(rows := s.rows[id := Row(key, mime, size, s.now, Failed, false)])
  {
    var s, created := Exec(w, c, es), es + [CreateLegacy(id, key, mime, size)];
    var pending := Row(key, mime, size, s.now, Pending, false);
    Advances(w, c, es, CreateLegacy(id, key, mime, size), s.(rows := s.rows[id := pending]));
    ConfirmationExactly(w, c, created, j, id, t, true);
    assert s.rows[id := pending][id := pending.(status := Failed)] == s.rows[id := pending.(status := Failed)];
  }

  /** The sweeper deletes the row of an object that never came, fails an SVG, a row without a pending
      key and every object it does not accept, and confirms the others. */
  lemma SweepExactly(w: World, c: Config, es: seq<Event>, j: nat, id: nat, typeReported: bool, withETag: bool)
    requires withETag || !c.alwaysETag
    requires var s := Exec(w, c, es);
             && j !in s.jobs && id in s.rows && !s.rows[id].deleted && s.rows[id].status.Pending?
             && s.rows[id].createdAt + c.sweepAge < s.now
    ensures var s, s' := Exec(w, c, es), Exec(w, c, JobRun(es + [Sweep(j, id)], j, typeReported, withETag));
            var r := s.rows[id];
            s' == if w.isSvg(r.mime) || !(PENDING_PREFIX <= r.key) then Rejected(s, id)
                  else if r.key !in s.objects then s.(rows := s.rows - {id})
                  else if Accepted(w, s.objects, r, typeReported) then Confirmed(w, s, id)
                  else Rejected(s, id)
  {
    var s := Exec(w, c, es);
    var job := SweepJob(w, s.rows[id], id);
    var es1 := es + [Sweep(j, id)];
    Advances(w, c, es, Sweep(j, id), WithJob(s, j, job));
    if job.phase.Loaded? && job.source !in s.objects {
      JobOrphaned(w, c, es1, s, j, job, typeReported, withETag);
    } else if job.phase.Loaded? && HeadMatches(s, job, typeReported) {
      JobChecked(w, c, es1, s, j, job, typeReported, withETag);
    } else {
      JobRejected(w, c, es1, s, j, job, typeReported, withETag);
    }
  }

  // ----- Under interference -----

  /** The row that a published job marks: not deleted, and for the sweeper still PENDING. */
  predicate MayMark(s: State, job: Job) {
    job.row in s.rows && !s.rows[job.row].deleted && (job.sweep ==> s.rows[job.row].status == Pending)
  }

  /** In every run, whatever else is under way, a job that has published marks such a row UPLOADED at
      the key without its prefix; any other row, and the objects, it leaves alone. A client's job that
      finds no row to mark ends there, with the pending object in place. */
  lemma MarkTakesEffect(w: World, c: Config, es: seq<Event>, j: nat)
    requires j in Exec(w, c, es).jobs && Exec(w, c, es).jobs[j].phase.Published?
    ensures var s, s' := Exec(w, c, es), Exec(w, c, es + [MarkConfirmed(j)]);
            var id, source := s.jobs[j].row, s.jobs[j].source;
            && PENDING_PREFIX <= source && source[|PENDING_PREFIX|..] in s.published && s'.objects == s.objects
            && s'.rows ==
               (if MayMark(s, s.jobs[j])
                then s.rows[id := s.rows[id].(key := source[|PENDING_PREFIX|..], status := Uploaded)] else s.rows)
            && s'.jobs ==
               if MayMark(s, s.jobs[j]) || s.jobs[j].sweep then s.jobs[j := s.jobs[j].(phase := Cleaning)]
               else s.jobs - {j}
  {
    AlwaysStructured(w, c, es);
    var s := Exec(w, c, es);
    assert JobOk(s, s.jobs[j]);
    ExecSnoc(w, c, es, MarkConfirmed(j));
  }

  /** In every run a rejected job fails its row, a deleted one only for the sweeper, and ends. */
  lemma RejectTakesEffect(w: World, c: Config, es: seq<Event>, j: nat)
    requires j in Exec(w, c, es).jobs && Exec(w, c, es).jobs[j].phase.Rejecting?
    ensures var s, s' := Exec(w, c, es), Exec(w, c, es + [MarkFailed(j)]);
            var id := s.jobs[j].row;
            && s'.objects == s.objects && s'.jobs == s.jobs - {j}
            && s'.rows ==
               if id in s.rows && (s.rows[id].deleted ==> s.jobs[j].sweep)
               then s.rows[id := s.rows[id].(status := Failed)] else s.rows
  {
    ExecSnoc(w, c, es, MarkFailed(j));
  }

  /** In every run a confirmation or a sweep takes up exactly a live PENDING row, the sweeper only one
      older than its age. */
  lemma TakesUpExactly(w: World, c: Config, es: seq<Event>, j: nat, id: nat)
    requires j !in Exec(w, c, es).jobs
    ensures var s := Exec(w, c, es);
            var live := id in s.rows && !s.rows[id].deleted && s.rows[id].status == Pending;
            && Exec(w, c, es + [Confirm(j, id)]) == (if live then WithJob(s, j, ConfirmJob(s.rows[id], id)) else s)
            && Exec(w, c, es + [Sweep(j, id)]) ==
               if live && s.rows[id].createdAt + c.sweepAge < s.now then WithJob(s, j, SweepJob(w, s.rows[id], id))
               else s
  {
    ExecSnoc(w, c, es, Confirm(j, id));
    ExecSnoc(w, c, es, Sweep(j, id));
  }

  /** In every run the sweeper moves on from a copy whose object has gone, leaving the row as it is for
      a later sweep. */
  lemma SweepMovesOn(w: World, c: Config, es: seq<Event>, j: nat)
    requires var s := Exec(w, c, es);
             j in s.jobs && s.jobs[j].sweep && s.jobs[j].phase.Checked? && s.jobs[j].source !in s.objects
    ensures Exec(w, c, es + [Write(j)]) == Exec(w, c, es).(jobs := Exec(w, c, es).jobs - {j})
  {
    ExecSnoc(w, c, es, Write(j));
  }

  /** In every run a pinned copy whose object has gone or changed publishes nothing, and the client's
      row is failed next. */
  lemma ReplacedObjectIsRefused(w: World, c: Config, es: seq<Event>, j: nat)
    requires var s := Exec(w, c, es);
             && j in s.jobs && s.jobs[j].phase.Checked? && s.jobs[j].phase.eTag.Some? && !s.jobs[j].sweep
             && s.jobs[j].row in s.rows && !s.rows[s.jobs[j].row].deleted
             && (s.jobs[j].source in s.objects ==>
                   w.eTag(s.objects[s.jobs[j].source].bytes) != s.jobs[j].phase.eTag.value)
    ensures var s, s' := Exec(w, c, es), Exec(w, c, es + [Write(j)] + [MarkFailed(j)]);
            && s'.objects == s.objects && s'.published == s.published && j !in s'.jobs
            && s'.rows == s.rows[s.jobs[j].row := s.rows[s.jobs[j].row].(status := Failed)]
  {
    var s := Exec(w, c, es);
    Advances(w, c, es, Write(j), To(s, j, Rejecting));
    ExecSnoc(w, c, es + [Write(j)], MarkFailed(j));
  }
}
