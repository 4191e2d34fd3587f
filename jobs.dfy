/** app/jobs.py: the in-memory registry of generation jobs and the sweep that
    reclaims finished ones. Each operation runs under the store's lock in the
    source, so each is modelled as one atomic step; the clock, the id oracle
    and the file system are parameters. */
module Jobs {
  import opened Text

  /** The `Job` dataclass. Timestamps are seconds, as `time.time()` gives. */
  datatype Job = Job(
    id: string,
    status: string,
    prompt: string,
    framework: string,
    message: string,
    progress: real,
    zipPath: Option<string>,
    createdAt: real,
    updatedAt: real)

  /** `Job(id=id, prompt=prompt, framework=framework)`: the remaining fields
      take their defaults, the two timestamps from two clock readings. */
  function NewJob(id: string, prompt: string, framework: string, createdAt: real, updatedAt: real): (j: Job)
    ensures j.id == id && j.prompt == prompt && j.framework == framework
    ensures j.status == "queued" && j.message == "" && j.progress == 0.0 && j.zipPath == None
    ensures j.createdAt == createdAt && j.updatedAt == updatedAt
    ensures forall now: real, ttl: int :: !Expired(j, now, ttl)
  {
    Job(id, "queued", prompt, framework, "", 0.0, None, createdAt, updatedAt)
  }

  predicate IsTerminal(status: string)
  {
    status == "succeeded" || status == "failed"
  }

  /** The sweep's test: finished, and last touched more than `ttl` seconds
      before `now`. */
  predicate Expired(j: Job, now: real, ttl: int): (b: bool)
    ensures b ==> IsTerminal(j.status)
    ensures j.status == "queued" || j.status == "running" ==> !b
    ensures b ==> j.updatedAt < now - ttl as real
    ensures IsTerminal(j.status) && j.updatedAt < now - ttl as real ==> b
  {
    IsTerminal(j.status) && now - j.updatedAt > ttl as real
  }

  // ---------------------------------------------------------------------
  // Attribute writes: the keyword arguments of `update`
  // ---------------------------------------------------------------------

  /** The attributes of a `Job`. */
  datatype Attr = IdAttr | StatusAttr | PromptAttr | FrameworkAttr | MessageAttr
                | ProgressAttr | ZipPathAttr | CreatedAtAttr | UpdatedAtAttr

  /** One keyword argument `name=value` of `update`. */
  datatype Field =
    | Id(id: string)
    | Status(status: string)
    | Prompt(prompt: string)
    | Framework(framework: string)
    | Message(message: string)
    | Progress(progress: real)
    | ZipPath(zipPath: Option<string>)
    | CreatedAt(createdAt: real)
    | UpdatedAt(updatedAt: real)

  function AttrOf(f: Field): Attr
  {
    match f
    case Id(_) => IdAttr
    case Status(_) => StatusAttr
    case Prompt(_) => PromptAttr
    case Framework(_) => FrameworkAttr
    case Message(_) => MessageAttr
    case Progress(_) => ProgressAttr
    case ZipPath(_) => ZipPathAttr
    case CreatedAt(_) => CreatedAtAttr
    case UpdatedAt(_) => UpdatedAtAttr
  }

  /** `getattr(job, a)`, as a keyword argument. */
  function GetAttr(j: Job, a: Attr): (f: Field)
    ensures AttrOf(f) == a
  {
    match a
    case IdAttr => Id(j.id)
    case StatusAttr => Status(j.status)
    case PromptAttr => Prompt(j.prompt)
    case FrameworkAttr => Framework(j.framework)
    case MessageAttr => Message(j.message)
    case ProgressAttr => Progress(j.progress)
    case ZipPathAttr => ZipPath(j.zipPath)
    case CreatedAtAttr => CreatedAt(j.createdAt)
    case UpdatedAtAttr => UpdatedAt(j.updatedAt)
  }

  /** `setattr(job, k, v)`: the named attribute reads back as written, and
      every other attribute is as before. */
  function SetAttr(j: Job, f: Field): (r: Job)
    ensures GetAttr(r, AttrOf(f)) == f
    ensures forall a :: a != AttrOf(f) ==> GetAttr(r, a) == GetAttr(j, a)
  {
    match f
    case Id(v) => j.(id := v)
    case Status(v) => j.(status := v)
    case Prompt(v) => j.(prompt := v)
    case Framework(v) => j.(framework := v)
    case Message(v) => j.(message := v)
    case Progress(v) => j.(progress := v)
    case ZipPath(v) => j.(zipPath := v)
    case CreatedAt(v) => j.(createdAt := v)
    case UpdatedAt(v) => j.(updatedAt := v)
  }

  /** The `setattr` loop of `update`, over the keyword arguments in order.
      Afterwards every named attribute holds the value it was last given,
      and every other attribute is unchanged. */
  function ApplyAll(j: Job, kwargs: seq<Field>): (r: Job)
    ensures forall a :: GetAttr(r, a) == match LastWrite(kwargs, a)
      case Some(f) => f
      case None => GetAttr(j, a)
  {
    if kwargs == [] then j else SetAttr(ApplyAll(j, kwargs[..|kwargs| - 1]), kwargs[|kwargs| - 1])
  }

  /** The last keyword argument that names attribute `a`, if any. */
  function LastWrite(kwargs: seq<Field>, a: Attr): (r: Option<Field>)
    ensures r.Some? ==> AttrOf(r.value) == a
    ensures r.Some? ==> exists i :: 0 <= i < |kwargs| && kwargs[i] == r.value && NotNamedAfter(kwargs, a, i)
    ensures r.None? ==> forall f :: f in kwargs ==> AttrOf(f) != a
  {
    if kwargs == [] then None
    else if AttrOf(kwargs[|kwargs| - 1]) == a then
      assert NotNamedAfter(kwargs, a, |kwargs| - 1);
      Some(kwargs[|kwargs| - 1])
    else
      var init := kwargs[..|kwargs| - 1];
      var r := LastWrite(init, a);
      assert r.Some? ==> exists i :: 0 <= i < |kwargs| && kwargs[i] == r.value && NotNamedAfter(kwargs, a, i) by {
        if r.Some? {
          var i :| 0 <= i < |init| && init[i] == r.value && NotNamedAfter(init, a, i);
          assert kwargs[i] == init[i];
          assert NotNamedAfter(kwargs, a, i);
        }
      }
      r
  }

  /** No keyword argument after position `i` names attribute `a`. */
  predicate NotNamedAfter(kwargs: seq<Field>, a: Attr, i: int)
  {
    forall j :: i < j < |kwargs| && 0 <= j ==> AttrOf(kwargs[j]) != a
  }

  /** What `update` makes of a present job: the keyword writes, then the
      `updated_at` bump. */
  function Updated(j: Job, kwargs: seq<Field>, now: real): (r: Job)
    ensures r.updatedAt == now
    ensures kwargs == [] ==> r == j.(updatedAt := now)
  {
    SetAttr(ApplyAll(j, kwargs), UpdatedAt(now))
  }

  /** `update` sets `updated_at` to the current time, sets each other named
      attribute to its last written value, and leaves the rest alone. */
  lemma UpdatedAttr(j: Job, kwargs: seq<Field>, now: real, a: Attr)
    ensures a == UpdatedAtAttr ==> Updated(j, kwargs, now).updatedAt == now
    ensures a != UpdatedAtAttr ==> GetAttr(Updated(j, kwargs, now), a) == match LastWrite(kwargs, a)
      case Some(f) => f
      case None => GetAttr(j, a)
  {
  }

  /** `max(0.0, min(1.0, progress))`. */
  function Clamp(p: real): (r: real)
    ensures 0.0 <= r <= 1.0
    ensures 0.0 <= p <= 1.0 ==> r == p
    ensures p < 0.0 ==> r == 0.0
    ensures p > 1.0 ==> r == 1.0
  {
    var upper := if 1.0 < p then 1.0 else p;
    if 0.0 > upper then 0.0 else upper
  }

  // ---------------------------------------------------------------------
  // Keys in insertion order
  // ---------------------------------------------------------------------

  predicate Distinct(s: seq<string>)
  {
    forall i, j :: 0 <= i < j < |s| ==> s[i] != s[j]
  }

  /** `r` is `s` with some elements left out, the others in their order. */
  predicate IsSubseq(r: seq<string>, s: seq<string>)
  {
    if r == [] then true
    else if s == [] then false
    else if r[|r| - 1] == s[|s| - 1] then IsSubseq(r[..|r| - 1], s[..|s| - 1])
    else IsSubseq(r, s[..|s| - 1])
  }

  /** `s` without the keys in `x`, order kept. */
  function Drop(s: seq<string>, x: set<string>): (r: seq<string>)
    ensures forall k :: k in r <==> k in s && k !in x
    ensures IsSubseq(r, s)
    ensures Distinct(s) ==> Distinct(r)
  {
    if s == [] then []
    else
      var rest := Drop(s[..|s| - 1], x);
      var last := s[|s| - 1];
      if last in x then
        assert rest != [] ==> rest[|rest| - 1] != last;
        rest
      else
        assert Distinct(s) ==> last !in rest;
        assert (rest + [last])[..|rest|] == rest;
        rest + [last]
  }

  /** The keys in `s`. */
  function Elems(s: seq<string>): (r: set<string>)
    ensures forall k :: k in r <==> k in s
  {
    set k | k in s
  }

  /** Extending a prefix by one element adds that element; in a sequence
      without repeats it was not there before. */
  lemma ElemsStep(s: seq<string>, i: nat)
    requires i < |s|
    ensures s[..i + 1][..i] == s[..i]
    ensures Elems(s[..i + 1]) == Elems(s[..i]) + {s[i]}
    ensures Distinct(s) ==> s[i] !in Elems(s[..i])
  {
    assert s[..i + 1] == s[..i] + [s[i]];
  }

  /** Removing keys, then one more, removes them all. */
  lemma MapRemoveTwice(m: map<string, Job>, x: set<string>, k: string)
    ensures m - x - {k} == m - (x + {k})
  {
  }

  /** Dropping no keys changes nothing. */
  lemma {:induction false} DropNothing(s: seq<string>)
    ensures Drop(s, {}) == s
  {
    if s != [] {
      DropNothing(s[..|s| - 1]);
      assert s[..|s| - 1] + [s[|s| - 1]] == s;
    }
  }

  /** Dropping keys in two rounds drops their union. */
  lemma {:induction false} DropTwice(s: seq<string>, x: set<string>, y: set<string>)
    ensures Drop(Drop(s, x), y) == Drop(s, x + y)
  {
    if s != [] {
      var init, last := s[..|s| - 1], s[|s| - 1];
      DropTwice(init, x, y);
      if last !in x {
        var d := Drop(init, x);
        assert (d + [last])[..|d + [last]| - 1] == d;
      }
    }
  }

  // ---------------------------------------------------------------------
  // The sweep, as functions of the store it starts from
  // ---------------------------------------------------------------------

  /** The ids the sweep's first loop collects, in the order it meets them. */
  function ExpiredIds(ks: seq<string>, m: map<string, Job>, now: real, ttl: int): (r: seq<string>)
    ensures forall k :: k in r <==> k in ks && k in m && Expired(m[k], now, ttl)
    ensures Distinct(ks) ==> Distinct(r)
  {
    if ks == [] then []
    else
      var rest := ExpiredIds(ks[..|ks| - 1], m, now, ttl);
      var last := ks[|ks| - 1];
      if last in m && Expired(m[last], now, ttl) then
        assert Distinct(ks) ==> last !in rest;
        rest + [last]
      else rest
  }

  /** The keys the sweep removes. */
  function ExpiredKeys(m: map<string, Job>, now: real, ttl: int): set<string>
  {
    set k | k in m && Expired(m[k], now, ttl)
  }

  /** The store after one sweep. */
  function Pruned(m: map<string, Job>, now: real, ttl: int): (r: map<string, Job>)
    ensures r.Keys <= m.Keys
    ensures forall k :: k in r ==> r[k] == m[k] && !Expired(m[k], now, ttl)
  {
    m - ExpiredKeys(m, now, ttl)
  }

  /** `job and job.zip_path`: the zip a looked-up record names, if any; the
      empty path is falsy. */
  function ZipToDelete(job: Option<Job>): (r: Option<string>)
    ensures r.Some? <==> job.Some? && job.value.zipPath.Some? && job.value.zipPath.value != ""
    ensures r.Some? ==> r == job.value.zipPath
  {
    match job
    case Some(j) => if j.zipPath.Some? && j.zipPath.value != "" then j.zipPath else None
    case None => None
  }

  /** The zip the sweep considers for `id`. */
  function ZipOf(m: map<string, Job>, id: string): Option<string>
  {
    ZipToDelete(if id in m then Some(m[id]) else None)
  }

  /** What the sweep does about one job's zip: a zip that still exists is
      removed, unless its removal is in `failing` (it raises and is ignored);
      either way the attempt is recorded. */
  function ZipStep(acc: (set<string>, seq<string>), zip: Option<string>, failing: set<string>)
    : (r: (set<string>, seq<string>))
    ensures r.0 <= acc.0
    ensures forall f :: f in acc.0 && f !in r.0 ==> zip == Some(f) && f !in failing
    ensures zip.Some? && zip.value in acc.0 && zip.value !in failing ==> zip.value !in r.0
    ensures r.1 == acc.1 + (if zip.Some? && zip.value in acc.0 then [zip.value] else [])
  {
    match zip
    case Some(p) =>
      if p in acc.0 then (if p in failing then acc.0 else acc.0 - {p}, acc.1 + [p]) else acc
    case None => acc
  }

  /** The second loop's effect on the file system, id by id: the files left
      and the removals attempted, in order. */
  function RemoveZips(ids: seq<string>, m: map<string, Job>, files: set<string>, failing: set<string>)
    : (r: (set<string>, seq<string>))
    ensures r.0 <= files
    ensures |r.1| <= |ids|
  {
    if ids == [] then (files, [])
    else ZipStep(RemoveZips(ids[..|ids| - 1], m, files, failing), ZipOf(m, ids[|ids| - 1]), failing)
  }

  /** The zips of the given jobs. */
  function ZipPaths(ids: seq<string>, m: map<string, Job>): set<string>
  {
    if ids == [] then {}
    else
      ZipPaths(ids[..|ids| - 1], m)
      + match ZipOf(m, ids[|ids| - 1]) case Some(p) => {p} case None => {}
  }

  /** The sweep deletes exactly the zips of the swept jobs that exist and can
      be deleted, and attempts a deletion exactly for the zips of swept jobs
      that exist. */
  lemma {:induction false} RemoveZipsEffect(ids: seq<string>, m: map<string, Job>, files: set<string>, failing: set<string>)
    ensures RemoveZips(ids, m, files, failing).0 == files - (ZipPaths(ids, m) - failing)
    ensures forall p :: p in RemoveZips(ids, m, files, failing).1 <==> p in files && p in ZipPaths(ids, m)
  {
    if ids != [] {
      RemoveZipsEffect(ids[..|ids| - 1], m, files, failing);
    }
  }

  /** One sweep removes exactly the expired jobs and keeps every other job
      as it was. */
  lemma PrunedKeeps(m: map<string, Job>, now: real, ttl: int, k: string)
    ensures k in Pruned(m, now, ttl) <==> k in m && !Expired(m[k], now, ttl)
    ensures k in Pruned(m, now, ttl) ==> Pruned(m, now, ttl)[k] == m[k]
  {
  }

  /** Queued and running jobs, and any job with a status other than the two
      terminal ones, survive every sweep. */
  lemma PrunedKeepsUnfinished(m: map<string, Job>, now: real, ttl: int, k: string)
    requires k in m && !IsTerminal(m[k].status)
    ensures k in Pruned(m, now, ttl) && Pruned(m, now, ttl)[k] == m[k]
  {
  }

  /** A second sweep at the same time removes nothing more. */
  lemma PrunedIdempotent(m: map<string, Job>, now: real, ttl: int)
    ensures Pruned(Pruned(m, now, ttl), now, ttl) == Pruned(m, now, ttl)
  {
  }

  /** A later sweep removes at least what an earlier one removes. */
  lemma PrunedLaterRemovesMore(m: map<string, Job>, early: real, late: real, ttl: int)
    requires early <= late
    ensures Pruned(m, late, ttl).Keys <= Pruned(m, early, ttl).Keys
  {
  }

  /** The body of the second loop, before the pop: delete the record's zip
      when it names one that exists; a deletion in `failing` raises and the
      error is swallowed. */
  method DeleteZip(job: Option<Job>, files: set<string>, attempts: seq<string>, failing: set<string>)
    returns (left: set<string>, tried: seq<string>)
    ensures (left, tried) == ZipStep((files, attempts), ZipToDelete(job), failing)
    ensures left <= files && |attempts| <= |tried| <= |attempts| + 1
  {
    left, tried := files, attempts;
    if job.Some? && job.value.zipPath.Some? && job.value.zipPath.value != "" && job.value.zipPath.value in files {
      var path := job.value.zipPath.value;
      tried := tried + [path];
      if path !in failing {
        left := left - {path};
      }
    }
  }

  // ---------------------------------------------------------------------
  // The store
  // ---------------------------------------------------------------------

  /** `JobStore`: its class-level dict `_jobs` and flag `_pruner_started`.
      `order` is the dict's insertion order, which `all()` follows. */
  class JobStore {
    var jobs: map<string, Job>
    var order: seq<string>
    var prunerStarted: bool

    ghost predicate Valid()
      reads this
    {
      Distinct(order) && forall k :: k in order <==> k in jobs
    }

    /** The store at import time: no jobs, no pruner. */
    constructor ()
      ensures Valid() && jobs == map[] && order == [] && !prunerStarted
    {
      jobs := map[];
      order := [];
      prunerStarted := false;
    }

    /** `create`: a fresh `queued` record under the id the oracle supplies
        (uuid4). A colliding id would overwrite, as the dict assignment
        does, keeping the key's place in the order. */
    method Create(id: string, prompt: string, framework: string, createdAt: real, updatedAt: real)
      returns (job: Job)
      requires Valid()
      modifies this`jobs, this`order
      ensures Valid()
      ensures job.id == id && job.prompt == prompt && job.framework == framework
      ensures job.status == "queued" && job.progress == 0.0 && job.message == "" && job.zipPath == None
      ensures job.createdAt == createdAt && job.updatedAt == updatedAt
      ensures jobs == old(jobs)[id := job]
      ensures order == if id in old(jobs) then old(order) else old(order) + [id]
      ensures id !in old(jobs) ==> jobs.Keys == old(jobs).Keys + {id} && |jobs| == |old(jobs)| + 1
      ensures Get(id) == Some(job)
    {
      job := NewJob(id, prompt, framework, createdAt, updatedAt);
      if id !in jobs {
        order := order + [id];
      }
      jobs := jobs[id := job];
    }

    /** `get`: the record, or `None` for an unknown id. */
    function Get(id: string): (r: Option<Job>)
      reads this
      ensures r == None <==> id !in jobs
      ensures r.Some? ==> r.value == jobs[id]
    {
      if id in jobs then Some(jobs[id]) else None
    }

    /** `update`: applies the keyword writes in order and bumps `updated_at`;
        an unknown id leaves the store as it was. */
    method Update(id: string, kwargs: seq<Field>, now: real)
      requires Valid()
      modifies this`jobs
      ensures Valid()
      ensures id !in old(jobs) ==> jobs == old(jobs)
      ensures id in old(jobs) ==> jobs == old(jobs)[id := Updated(old(jobs)[id], kwargs, now)]
    {
      if id !in jobs {
        return;
      }
      var job := jobs[id];
      for i := 0 to |kwargs|
        invariant job == ApplyAll(jobs[id], kwargs[..i])
      {
        assert kwargs[..i + 1][..i] == kwargs[..i];
        job := SetAttr(job, kwargs[i]);
      }
      assert kwargs[..|kwargs|] == kwargs;
      job := SetAttr(job, UpdatedAt(now));
      jobs := jobs[id := job];
    }

    /** `set_progress`: stores the progress clamped to [0, 1] and overwrites
        the message (the caller passes "" when it has none). */
    method SetProgress(id: string, progress: real, message: string, now: real)
      requires Valid()
      modifies this`jobs
      ensures Valid()
      ensures id !in old(jobs) ==> jobs == old(jobs)
      ensures id in old(jobs) ==> jobs == old(jobs)[id := old(jobs)[id].(progress := Clamp(progress), message := message, updatedAt := now)]
      ensures id in jobs ==> 0.0 <= jobs[id].progress <= 1.0
    {
      Update(id, [Progress(Clamp(progress)), Message(message)], now);
      if id in old(jobs) {
        var j := old(jobs)[id];
        var kwargs := [Progress(Clamp(progress)), Message(message)];
        assert kwargs[..1] == [Progress(Clamp(progress))];
        assert kwargs[..1][..0] == [];
        assert ApplyAll(j, kwargs[..1]) == j.(progress := Clamp(progress));
        assert ApplyAll(j, kwargs) == j.(progress := Clamp(progress), message := message);
        assert Updated(j, kwargs, now) == j.(progress := Clamp(progress), message := message, updatedAt := now);
      }
    }

    /** `all`: a snapshot of the records, in insertion order. */
    function All(): (r: seq<Job>)
      reads this
      requires Valid()
      ensures |r| == |order|
      ensures forall i :: 0 <= i < |r| ==> r[i] == jobs[order[i]]
    {
      Snapshot(order, jobs)
    }

    /** `start_pruner`: only the first call starts the sweeping thread. */
    method StartPruner() returns (started: bool)
      modifies this`prunerStarted
      ensures started == !old(prunerStarted)
      ensures prunerStarted
    {
      if prunerStarted {
        return false;
      }
      prunerStarted := true;
      started := true;
    }

    /** `_jobs.pop(jid, None)`: the record goes, with its place in the
        order; an unknown id changes nothing. */
    method Pop(jid: string)
      requires Valid()
      modifies this`jobs, this`order
      ensures Valid()
      ensures jobs == old(jobs) - {jid}
      ensures order == Drop(old(order), {jid})
    {
      jobs := jobs - {jid};
      order := Drop(order, {jid});
    }

    /** The first loop of a sweep: the expired ids, in insertion order. */
    method ExpiredInOrder(now: real, ttl: int) returns (ids: seq<string>)
      requires Valid()
      ensures ids == ExpiredIds(order, jobs, now, ttl)
      ensures Distinct(ids)
      ensures forall k :: k in ids <==> k in jobs && Expired(jobs[k], now, ttl)
    {
      ids := [];
      for i := 0 to |order|
        invariant ids == ExpiredIds(order[..i], jobs, now, ttl)
      {
        assert order[..i + 1][..i] == order[..i];
        if Expired(jobs[order[i]], now, ttl) {
          ids := ids + [order[i]];
        }
      }
      assert order[..|order|] == order;
    }

    /** The second loop of a sweep: for each id, delete its zip if it
        exists (a deletion in `failing` raises and is ignored), then pop the
        record. Gives the files left and the deletions attempted. */
    method Evict(ids: seq<string>, files: set<string>, failing: set<string>)
      returns (remaining: set<string>, attempted: seq<string>)
      requires Valid() && Distinct(ids)
      requires forall k :: k in ids ==> k in jobs
      modifies this`jobs, this`order
      ensures Valid()
      ensures jobs == old(jobs) - Elems(ids)
      ensures order == Drop(old(order), Elems(ids))
      ensures (remaining, attempted) == RemoveZips(ids, old(jobs), files, failing)
    {
      DropNothing(order);
      assert Elems(ids[..0]) == {};
      remaining, attempted := files, [];
      for i := 0 to |ids|
        invariant Valid()
        invariant jobs == old(jobs) - Elems(ids[..i])
        invariant order == Drop(old(order), Elems(ids[..i]))
        invariant (remaining, attempted) == RemoveZips(ids[..i], old(jobs), files, failing)
      {
        var jid := ids[i];
        ghost var gone := Elems(ids[..i]);
        ElemsStep(ids, i);
        var job := Get(jid);
        remaining, attempted := DeleteZip(job, remaining, attempted, failing);
        Pop(jid);
        DropTwice(old(order), gone, {jid});
        MapRemoveTwice(old(jobs), gone, jid);
      }
      assert ids[..|ids|] == ids;
    }

    /** One pass of the pruner's loop at time `now`: the expired records are
        removed, with their zips where those exist. */
    method Sweep(now: real, ttl: int, files: set<string>, failing: set<string>)
      returns (remaining: set<string>, attempted: seq<string>)
      requires Valid()
      modifies this`jobs, this`order
      ensures Valid()
      ensures jobs == Pruned(old(jobs), now, ttl)
      ensures order == Drop(old(order), ExpiredKeys(old(jobs), now, ttl))
      ensures (remaining, attempted) == RemoveZips(ExpiredIds(old(order), old(jobs), now, ttl), old(jobs), files, failing)
    {
      var ids := ExpiredInOrder(now, ttl);
      assert Elems(ids) == ExpiredKeys(jobs, now, ttl);
      remaining, attempted := Evict(ids, files, failing);
    }
  }

  /** The records of `ks`, in that order. */
  function Snapshot(ks: seq<string>, m: map<string, Job>): (r: seq<Job>)
    requires forall k :: k in ks ==> k in m
    ensures |r| == |ks|
    ensures forall i :: 0 <= i < |r| ==> r[i] == m[ks[i]]
  {
    if ks == [] then [] else Snapshot(ks[..|ks| - 1], m) + [m[ks[|ks| - 1]]]
  }
}
