/**
 * The job lifecycle of the hashing server as a sequential state machine:
 * a submission allocates the next id, records it as pending and queues the
 * job; a worker takes the job at the head of the queue, waits out the
 * five-second service floor, stores the digest and records one statistics
 * sample; a lookup classifies a `/hash/<id>` path against the request map.
 * The model takes each handler call and each worker iteration as one step;
 * the server's locks guard only the single map and statistics updates.
 */
module Handlers {
  import opened GoLib
  import opened Utils

  /** Seconds between the submission of a job and the earliest moment its digest is stored. */
  const RQST_SERVICE_TIME: int := 5

  /** Length of the URL-safe, padded base64 encoding of a 64-byte SHA-512 sum. */
  const DIGEST_LENGTH: int := 88

  /** A queued job: its id, its submission time in Unix seconds and the password to hash. */
  datatype HashRequest = HashRequest(id: int64, startTime: int64, clearpwd: string)

  /** The outcome of a submission: an empty password is rejected, anything else gets an id. */
  datatype Submission = Rejected | Accepted(id: int64)

  /** The value of `time.Now()` and the measured hashing time for one worker iteration. */
  datatype Tick = Tick(now: int64, elapsed: int64)

  /**
   * The digest function (SHA-512 then base64) is not part of this model: the
   * server is given one, and all that is assumed of it is the length of its
   * output, so that a stored digest is never the empty "pending" marker.
   */
  ghost predicate DigestsWellFormed(hasher: string -> string)
  {
    forall p :: |hasher(p)| == DIGEST_LENGTH
  }

  function Ids(queue: seq<HashRequest>): (ids: seq<int64>)
    ensures |ids| == |queue|
    ensures forall i :: 0 <= i < |queue| ==> ids[i] == queue[i].id
  {
    seq(|queue|, i requires 0 <= i < |queue| => queue[i].id)
  }

  /**
   * How long the worker sleeps before hashing a job submitted at `startTime`
   * when the clock reads `now`: the shortest non-negative wait that reaches
   * the service floor.
   */
  function Wait(startTime: int64, now: int64): (w: int)
    ensures w >= 0 && now as int + w >= startTime as int + RQST_SERVICE_TIME
    ensures w == 0 || now as int + w == startTime as int + RQST_SERVICE_TIME
  {
    if now as int < startTime as int + RQST_SERVICE_TIME then startTime as int + RQST_SERVICE_TIME - now as int else 0
  }

  // ---------------------------------------------------------------------
  // The lifecycle invariant

  /** The ids handed out so far are exactly 1..nextId, and each has an entry. */
  ghost predicate Issued(nextId: int64, requests: map<int64, string>)
  {
    0 <= nextId && forall id :: id in requests <==> 1 <= id <= nextId
  }

  /** `jobs` remembers every accepted request by id, and every queued job is one of them. */
  ghost predicate Recorded(requests: map<int64, string>, jobs: map<int64, HashRequest>, queue: seq<HashRequest>)
  {
    && jobs.Keys == requests.Keys
    && (forall id :: id in jobs ==> jobs[id].id == id)
    && (forall i :: 0 <= i < |queue| ==> queue[i].id in jobs && jobs[queue[i].id] == queue[i])
  }

  /** The queue holds jobs in increasing id order, so no id is queued twice. */
  ghost predicate Ordered(queue: seq<HashRequest>)
  {
    forall i, j :: 0 <= i < j < |queue| ==> queue[i].id < queue[j].id
  }

  /** An entry is empty exactly when its job is still queued. */
  ghost predicate PendingIffQueued(requests: map<int64, string>, queue: seq<HashRequest>)
  {
    forall id :: id in requests ==> (requests[id] == "" <==> id in Ids(queue))
  }

  /**
   * A filled entry holds the digest of its job's password, stored (at
   * `readyAt`) no earlier than the service floor.
   */
  ghost predicate FilledCorrectly(requests: map<int64, string>, jobs: map<int64, HashRequest>,
                                  readyAt: map<int64, int>, hasher: string -> string)
    requires jobs.Keys == requests.Keys
  {
    forall id :: id in requests && requests[id] != "" ==>
      && requests[id] == hasher(jobs[id].clearpwd)
      && id in readyAt
      && readyAt[id] >= jobs[id].startTime as int + RQST_SERVICE_TIME
  }

  /** What holds between operations. */
  ghost predicate Consistent(nextId: int64, requests: map<int64, string>, queue: seq<HashRequest>,
                             jobs: map<int64, HashRequest>, readyAt: map<int64, int>, hasher: string -> string)
  {
    && Issued(nextId, requests)
    && Recorded(requests, jobs, queue)
    && Ordered(queue)
    && PendingIffQueued(requests, queue)
    && FilledCorrectly(requests, jobs, readyAt, hasher)
  }

  /** Accepting a password (the next id, a pending entry, the job appended to the queue) keeps the invariant. */
  lemma AcceptPreserves(nextId: int64, requests: map<int64, string>, queue: seq<HashRequest>,
                        jobs: map<int64, HashRequest>, readyAt: map<int64, int>, hasher: string -> string,
                        pwd: string, now: int64)
    requires Consistent(nextId, requests, queue, jobs, readyAt, hasher)
    requires nextId as int < INT64_MAX
    ensures var hr := HashRequest(nextId + 1, now, pwd);
      && hr.id !in requests
      && Consistent(nextId + 1, requests[hr.id := ""], queue + [hr], jobs[hr.id := hr], readyAt, hasher)
  {
    var hr := HashRequest(nextId + 1, now, pwd);
    var requests', queue', jobs' := requests[hr.id := ""], queue + [hr], jobs[hr.id := hr];
    assert Issued(nextId + 1, requests');
    forall i | 0 <= i < |queue|
      ensures queue[i].id < hr.id
    {
      assert queue[i].id in requests;
    }
    assert Recorded(requests', jobs', queue') by {
      forall i | 0 <= i < |queue'|
        ensures queue'[i].id in jobs' && jobs'[queue'[i].id] == queue'[i]
      {
        if i < |queue| {
          assert queue'[i] == queue[i];
        }
      }
    }
    assert Ordered(queue');
    assert PendingIffQueued(requests', queue') by {
      assert Ids(queue') == Ids(queue) + [hr.id];
    }
    assert FilledCorrectly(requests', jobs', readyAt, hasher);
  }

  /** Adding a key that was absent keeps every existing entry. */
  lemma FreshKeyKeeps<K, V>(m: map<K, V>, k: K, v: V)
    requires k !in m
    ensures forall key :: key in m ==> key in m[k := v] && m[k := v][key] == m[key]
  {
  }

  /** Taking the head off an ordered queue leaves an ordered queue without the head's id. */
  lemma DequeueOrdered(queue: seq<HashRequest>)
    requires Ordered(queue) && queue != []
    ensures Ordered(queue[1..])
    ensures Ids(queue) == [queue[0].id] + Ids(queue[1..])
    ensures queue[0].id !in Ids(queue[1..])
  {
    var rest := queue[1..];
    forall i | 0 <= i < |rest| ensures Ids(rest)[i] != queue[0].id {
      assert rest[i] == queue[i + 1];
    }
  }

  /** Filling the head's entry keeps "empty exactly when queued". */
  lemma DequeuePending(requests: map<int64, string>, queue: seq<HashRequest>, digest: string)
    requires PendingIffQueued(requests, queue) && Ordered(queue) && queue != []
    requires queue[0].id in requests && digest != ""
    ensures PendingIffQueued(requests[queue[0].id := digest], queue[1..])
  {
    DequeueOrdered(queue);
    var requests' := requests[queue[0].id := digest];
    forall id | id in requests'
      ensures requests'[id] == "" <==> id in Ids(queue[1..])
    {
      if id != queue[0].id {
        assert id in Ids(queue) <==> id in Ids(queue[1..]);
      }
    }
  }

  /** Filling the head's entry with its digest, at a time past the floor, keeps the filled entries right. */
  lemma DequeueFilled(requests: map<int64, string>, jobs: map<int64, HashRequest>, readyAt: map<int64, int>,
                      hasher: string -> string, hr: HashRequest, at: int)
    requires jobs.Keys == requests.Keys && FilledCorrectly(requests, jobs, readyAt, hasher)
    requires hr.id in jobs && jobs[hr.id] == hr
    requires at >= hr.startTime as int + RQST_SERVICE_TIME
    ensures FilledCorrectly(requests[hr.id := hasher(hr.clearpwd)], jobs, readyAt[hr.id := at], hasher)
  {
  }

  /**
   * Processing the job at the head of the queue (its entry set to the digest,
   * stored after the wait) keeps the invariant.
   */
  lemma ProcessPreserves(nextId: int64, requests: map<int64, string>, queue: seq<HashRequest>,
                         jobs: map<int64, HashRequest>, readyAt: map<int64, int>, hasher: string -> string,
                         now: int64)
    requires Consistent(nextId, requests, queue, jobs, readyAt, hasher)
    requires DigestsWellFormed(hasher)
    requires queue != []
    ensures var hr := queue[0];
      && hr.id in requests && requests[hr.id] == ""
      && Consistent(nextId, requests[hr.id := hasher(hr.clearpwd)], queue[1..], jobs,
                    readyAt[hr.id := now as int + Wait(hr.startTime, now)], hasher)
  {
    var hr := queue[0];
    var digest := hasher(hr.clearpwd);
    var requests' := requests[hr.id := digest];
    assert hr.id in Ids(queue) && hr.id in requests;
    assert Issued(nextId, requests') by {
      assert requests'.Keys == requests.Keys;
    }
    assert Recorded(requests', jobs, queue[1..]) by {
      forall i | 0 <= i < |queue[1..]|
        ensures queue[1..][i].id in jobs && jobs[queue[1..][i].id] == queue[1..][i]
      {
        assert queue[1..][i] == queue[i + 1];
      }
    }
    DequeueOrdered(queue);
    assert |digest| == DIGEST_LENGTH;
    DequeuePending(requests, queue, digest);
    DequeueFilled(requests, jobs, readyAt, hasher, hr, now as int + Wait(hr.startTime, now));
  }

  /** Once the queue is empty, no entry is pending. */
  lemma NothingPending(requests: map<int64, string>, queue: seq<HashRequest>)
    requires PendingIffQueued(requests, queue) && queue == []
    ensures forall id :: id in requests ==> requests[id] != ""
  {
    assert Ids(queue) == [];
  }

  /**
   * Once the queue is empty, every entry holds the digest of its job's
   * password: in particular each job that was queued at some earlier state
   * `requests0`/`queue0` has its digest, and every entry filled then is kept.
   */
  lemma AllFilled(nextId: int64, requests: map<int64, string>, jobs: map<int64, HashRequest>,
                  readyAt: map<int64, int>, hasher: string -> string,
                  requests0: map<int64, string>, queue0: seq<HashRequest>, readyAt0: map<int64, int>)
    requires Consistent(nextId, requests, [], jobs, readyAt, hasher) && DigestsWellFormed(hasher)
    requires Issued(nextId, requests0) && Recorded(requests0, jobs, queue0)
    requires FilledCorrectly(requests0, jobs, readyAt0, hasher)
    ensures forall id :: id in requests ==> requests[id] == hasher(jobs[id].clearpwd) != ""
    ensures forall i :: 0 <= i < |queue0| ==>
              queue0[i].id in requests && requests[queue0[i].id] == hasher(queue0[i].clearpwd)
    ensures forall id :: id in requests0 && requests0[id] != "" ==> id in requests && requests[id] == requests0[id]
  {
    NothingPending(requests, []);
    forall id | id in requests ensures requests[id] == hasher(jobs[id].clearpwd) != "" {
      assert |hasher(jobs[id].clearpwd)| == DIGEST_LENGTH;
    }
  }

  lemma PrefixStep<T>(a: seq<T>, es: seq<T>, k: nat)
    requires k < |es|
    ensures a + es[..k] + [es[k]] == a + es[..k + 1]
  {
    assert es[..k + 1] == es[..k] + [es[k]];
  }

  lemma PrefixAll<T>(a: seq<T>, es: seq<T>)
    ensures a + es[..|es|] == a + es
  {
    assert es[..|es|] == es;
  }

  /** The `elapsed` readings of a run of ticks, in order. */
  function Elapsed(ticks: seq<Tick>): (es: seq<int64>)
    ensures |es| == |ticks| && forall i :: 0 <= i < |ticks| ==> es[i] == ticks[i].elapsed
  {
    seq(|ticks|, i requires 0 <= i < |ticks| => ticks[i].elapsed)
  }

  // ---------------------------------------------------------------------
  // Looking a job up by path

  /** What `GET /hash/<id>` reports. */
  datatype FetchResult =
    | NoRoute            // the path is not of the form <x>/hash/<y>
    | InvalidId          // <y> is not a positive decimal int64
    | NotFound           // no job with that id was ever accepted
    | NotReady           // accepted, digest not stored yet
    | Ready(digest: string)

  /** What a path names: not a job path, a bad id, or a job id. */
  datatype Target = BadPath | BadId | JobId(id: int64)

  /** The path checks of `GetHash`: exactly three `/`-separated pieces, the second `hash`, the third a positive int64. */
  function ParseHashPath(path: string): (t: Target)
    ensures t.JobId? ==> t.id > 0
  {
    var segments := Split(path, '/');
    if |segments| != 3 || segments[1] != "hash" then BadPath
    else match ParseInt(segments[2], Bits64)
      case None => BadId
      case Some(n) => if n <= 0 then BadId else JobId(n as int64)
  }

  /** `<pre>/hash/<d>`: the only shape of path that `GetHash` routes. */
  function JobPath(pre: string, d: string): string
  {
    pre + "/hash/" + d
  }

  lemma SplitJobPath(pre: string, d: string)
    requires '/' !in pre && '/' !in d
    ensures Split(JobPath(pre, d), '/') == [pre, "hash", d]
  {
    assert JobPath(pre, d) == pre + ['/'] + ("hash" + ['/'] + d);
    SplitAtFirst(pre, "hash" + ['/'] + d, '/');
    SplitAtFirst("hash", d, '/');
    SplitWithoutSep(d, '/');
  }

  /** A routed path names the id its last segment spells, when that is a positive int64, and is a bad id otherwise. */
  lemma ParseJobPath(pre: string, d: string)
    requires '/' !in pre && '/' !in d
    ensures var n := ParseInt(d, Bits64);
      ParseHashPath(JobPath(pre, d)) == if n.Some? && n.value > 0 then JobId(n.value as int64) else BadId
  {
    SplitJobPath(pre, d);
  }

  /** The pieces of a path that `ParseHashPath` routes. */
  lemma JobPathPieces(path: string) returns (pre: string, d: string)
    requires ParseHashPath(path) != BadPath
    ensures '/' !in pre && '/' !in d && path == JobPath(pre, d)
  {
    var segments := Split(path, '/');
    pre, d := segments[0], segments[2];
    assert |segments| == 3 && segments[1] == "hash";
    JoinSplit(path, '/');
    assert segments[1..][1..] == [d];
    assert Join(segments[1..], '/') == "hash" + ['/'] + d;
    assert Join(segments, '/') == pre + ['/'] + ("hash" + ['/'] + d);
  }

  /** A path is routed exactly when it has the shape `<pre>/hash/<d>` with no other `/`. */
  lemma ParseHashPathRoute(path: string)
    ensures ParseHashPath(path) != BadPath <==>
              exists pre, d :: '/' !in pre && '/' !in d && path == JobPath(pre, d)
  {
    if ParseHashPath(path) != BadPath {
      var pre, d := JobPathPieces(path);
    } else if exists pre, d :: '/' !in pre && '/' !in d && path == JobPath(pre, d) {
      var pre, d :| '/' !in pre && '/' !in d && path == JobPath(pre, d);
      ParseJobPath(pre, d);
      assert false;
    }
  }

  /** A path names job `id` exactly when it is `<pre>/hash/<d>` and `d` parses as the positive int64 `id`. */
  lemma ParseHashPathJob(path: string, id: int64)
    ensures ParseHashPath(path) == JobId(id) <==>
              exists pre, d :: && '/' !in pre && '/' !in d && path == JobPath(pre, d)
                               && ParseInt(d, Bits64) == Some(id as int) && id > 0
  {
    if ParseHashPath(path) == JobId(id) {
      var pre, d := JobPathPieces(path);
      ParseJobPath(pre, d);
    }
    if exists pre, d :: && '/' !in pre && '/' !in d && path == JobPath(pre, d)
                        && ParseInt(d, Bits64) == Some(id as int) && id > 0 {
      var pre, d :| && '/' !in pre && '/' !in d && path == JobPath(pre, d)
                    && ParseInt(d, Bits64) == Some(id as int) && id > 0;
      ParseJobPath(pre, d);
    }
  }

  /** The classification `GetHash` makes of a path against the request map. */
  function Fetch(path: string, requests: map<int64, string>): (r: FetchResult)
    ensures r == NoRoute <==> ParseHashPath(path) == BadPath
    ensures r == InvalidId <==> ParseHashPath(path) == BadId
    ensures r == NotFound <==> ParseHashPath(path).JobId? && ParseHashPath(path).id !in requests
    ensures r == NotReady <==>
              ParseHashPath(path).JobId? && ParseHashPath(path).id in requests && requests[ParseHashPath(path).id] == ""
    ensures r.Ready? ==> r.digest != "" && ParseHashPath(path).JobId? && requests[ParseHashPath(path).id] == r.digest
  {
    match ParseHashPath(path)
    case BadPath => NoRoute
    case BadId => InvalidId
    case JobId(id) =>
      if id !in requests then NotFound
      else if requests[id] == "" then NotReady
      else Ready(requests[id])
  }

  /** A printed integer contains no `/`. */
  lemma FormatIntNoSlash(n: int)
    ensures '/' !in FormatInt(n)
  {
    var digits := FormatInt(n);
    if n < 0 {
      assert forall i :: 0 < i < |digits| ==> digits[i] == digits[1..][i - 1];
    }
  }

  /** The path a client polls for the id that the submission printed: three segments, the last the id. */
  function HashPath(id: int64): (p: string)
    ensures Split(p, '/') == ["", "hash", FormatInt(id as int)]
  {
    FormatIntNoSlash(id as int);
    SplitJobPath("", FormatInt(id as int));
    JobPath("", FormatInt(id as int))
  }

  /** The polling path of a positive id names exactly that id; any other id is invalid. */
  lemma ParseHashPathOfId(id: int64)
    ensures ParseHashPath(HashPath(id)) == if id > 0 then JobId(id) else BadId
  {
    FormatIntNoSlash(id as int);
    ParseJobPath("", FormatInt(id as int));
    ParseFormatInt(id as int, Bits64);
  }

  /** Polling a non-positive id is rejected before any lookup, whatever the map holds. */
  lemma FetchNonPositive(id: int64, requests: map<int64, string>)
    requires id <= 0
    ensures Fetch(HashPath(id), requests) == InvalidId
  {
    ParseHashPathOfId(id);
  }

  /** An id the server has not handed out yet is not found. */
  lemma FetchUnissued(nextId: int64, requests: map<int64, string>, queue: seq<HashRequest>,
                      jobs: map<int64, HashRequest>, readyAt: map<int64, int>, hasher: string -> string,
                      id: int64)
    requires Consistent(nextId, requests, queue, jobs, readyAt, hasher)
    requires id > nextId
    ensures Fetch(HashPath(id), requests) == NotFound
  {
    ParseHashPathOfId(id);
  }

  /**
   * An id the server has handed out is not ready while its job is queued, and
   * afterwards reports the digest of the password submitted with it.
   */
  lemma FetchIssued(nextId: int64, requests: map<int64, string>, queue: seq<HashRequest>,
                    jobs: map<int64, HashRequest>, readyAt: map<int64, int>, hasher: string -> string,
                    id: int64)
    requires Consistent(nextId, requests, queue, jobs, readyAt, hasher)
    requires 1 <= id <= nextId
    ensures Fetch(HashPath(id), requests) ==
      if id in Ids(queue) then NotReady else Ready(hasher(jobs[id].clearpwd))
  {
    ParseHashPathOfId(id);
  }

  // ---------------------------------------------------------------------
  // The server

  /**
   * The package state of the server: the id counter, the request map, the
   * statistics, the bounded job channel and the digest function.
   */
  class Server {
    var nextId: int64
    const rqstMap: RequestMap
    const stats: ServerStatistics
    var channel: seq<HashRequest>
    const capacity: nat
    const hasher: string -> string
    ghost var jobs: map<int64, HashRequest>
    ghost var readyAt: map<int64, int>

    ghost predicate Valid()
      reads this, rqstMap, stats
    {
      && rqstMap.Valid()
      && stats.Valid()
      && |channel| <= capacity
      && DigestsWellFormed(hasher)
      && Consistent(nextId, rqstMap.requests, channel, jobs, readyAt, hasher)
    }

    /** The zero-valued globals, with a channel of the given capacity. */
    constructor (capacity: nat, hasher: string -> string)
      requires DigestsWellFormed(hasher)
      ensures Valid() && fresh(rqstMap) && fresh(stats)
      ensures this.capacity == capacity && this.hasher == hasher
      ensures nextId == 0 && channel == [] && rqstMap.requests == map[] && !rqstMap.made && stats.samples == []
    {
      nextId := 0;
      rqstMap := new RequestMap();
      stats := new ServerStatistics();
      channel := [];
      this.capacity := capacity;
      this.hasher := hasher;
      jobs, readyAt := map[], map[];
    }

    /**
     * `POST /hash` with form field `password`, submitted at `now`. An empty
     * password changes nothing; otherwise the next id is allocated, recorded as
     * pending, and the job is sent to the channel.
     */
    method CalculateHash(pwd: string, now: int64) returns (r: Submission)
      requires Valid()
      requires nextId as int < INT64_MAX
      requires pwd != "" ==> |channel| < capacity
      modifies this, rqstMap
      ensures Valid()
      ensures r == Rejected <==> pwd == ""
      ensures r == Rejected ==>
                && nextId == old(nextId) && channel == old(channel)
                && rqstMap.requests == old(rqstMap.requests) && jobs == old(jobs)
      ensures r.Accepted? ==>
                && r.id as int == old(nextId) as int + 1
                && nextId == r.id
                && r.id !in old(rqstMap.requests)
                && rqstMap.requests == old(rqstMap.requests)[r.id := ""]
                && channel == old(channel) + [HashRequest(r.id, now, pwd)]
                && jobs == old(jobs)[r.id := HashRequest(r.id, now, pwd)]
      ensures forall id :: id in old(rqstMap.requests) ==>
                id in rqstMap.requests && rqstMap.requests[id] == old(rqstMap.requests)[id]
    {
      if pwd == "" {
        return Rejected;
      }
      AcceptPreserves(nextId, rqstMap.requests, channel, jobs, readyAt, hasher, pwd, now);
      nextId := nextId + 1;
      var hr := HashRequest(nextId, now, pwd);
      rqstMap.Add(hr.id, "");
      channel := channel + [hr];
      jobs := jobs[hr.id := hr];
      r := Accepted(hr.id);
      FreshKeyKeeps(old(rqstMap.requests), hr.id, "");
    }

    /**
     * One iteration of the worker loop at clock reading `now`: take the job at
     * the head of the channel, wait out the service floor, store the digest of
     * its password and record `elapsed` microseconds of hashing time. Returns
     * the job and the number of seconds slept.
     */
    method ProcessOne(now: int64, elapsed: int64) returns (hr: HashRequest, wait: int)
      requires Valid()
      requires channel != []
      modifies this, rqstMap, stats
      ensures Valid()
      ensures hr == old(channel)[0] && channel == old(channel)[1..]
      ensures wait == Wait(hr.startTime, now)
      ensures hr.id in old(rqstMap.requests) && old(rqstMap.requests)[hr.id] == ""
      ensures rqstMap.requests == old(rqstMap.requests)[hr.id := hasher(hr.clearpwd)]
      ensures forall id :: id in old(rqstMap.requests) && old(rqstMap.requests)[id] != "" ==>
                rqstMap.requests[id] == old(rqstMap.requests)[id]
      ensures stats.samples == old(stats.samples) + [elapsed]
      ensures nextId == old(nextId) && jobs == old(jobs)
    {
      ProcessPreserves(nextId, rqstMap.requests, channel, jobs, readyAt, hasher, now);
      hr := channel[0];
      channel := channel[1..];
      wait := 0;
      if now as int < hr.startTime as int + RQST_SERVICE_TIME {
        wait := hr.startTime as int + RQST_SERVICE_TIME - now as int;
      }
      readyAt := readyAt[hr.id := now as int + wait];
      rqstMap.Add(hr.id, hasher(hr.clearpwd));
      stats.Add(elapsed);
    }

    /**
     * `GET /hash/<id>`: check the path, look the id up without changing the
     * map, and write the response lines. For a pending entry the handler
     * writes its error line and, as it does not return after it, then prints
     * the empty digest as a second, empty line.
     */
    method GetHash(path: string) returns (r: FetchResult, body: seq<string>)
      requires rqstMap.Valid()
      ensures r == Fetch(path, rqstMap.requests)
      ensures r.Ready? ==> body == [r.digest]
      ensures r == NotReady ==> body == ["Request not ready", ""]
      ensures r == NoRoute ==> body == ["404 page not found"]
      ensures r == InvalidId ==> body == ["Invalid request ID"]
      ensures r == NotFound ==> body == ["Request not found"]
    {
      match ParseHashPath(path)
      case BadPath =>
        r, body := NoRoute, ["404 page not found"];
      case BadId =>
        r, body := InvalidId, ["Invalid request ID"];
      case JobId(id) =>
        var hashstr, found := rqstMap.Get(id);
        if !found {
          return NotFound, ["Request not found"];
        }
        body := [];
        if hashstr == "" {
          r := NotReady;
          body := body + ["Request not ready"];
        } else {
          r := Ready(hashstr);
        }
        body := body + [hashstr];
    }

    /**
     * The worker loop run until the closed channel is drained, one tick per
     * queued job: afterwards every entry holds the digest of its job's
     * password, and one sample per tick was recorded in order.
     */
    method Drain(ticks: seq<Tick>)
      requires Valid()
      requires |ticks| == |channel|
      modifies this, rqstMap, stats
      ensures Valid()
      ensures channel == [] && nextId == old(nextId) && jobs == old(jobs)
      ensures forall id :: id in rqstMap.requests <==> id in old(rqstMap.requests)
      ensures forall id :: id in rqstMap.requests ==> rqstMap.requests[id] == hasher(jobs[id].clearpwd) != ""
      ensures forall i :: 0 <= i < |old(channel)| ==>
                rqstMap.requests[old(channel)[i].id] == hasher(old(channel)[i].clearpwd)
      ensures forall id :: id in old(rqstMap.requests) && old(rqstMap.requests)[id] != "" ==>
                rqstMap.requests[id] == old(rqstMap.requests)[id]
      ensures stats.samples == old(stats.samples) + Elapsed(ticks)
    {
      ghost var requests0, queue0, readyAt0 := rqstMap.requests, channel, readyAt;
      assert Issued(nextId, requests0) && Recorded(requests0, jobs, queue0);
      assert FilledCorrectly(requests0, jobs, readyAt0, hasher);
      ghost var es, samples0 := Elapsed(ticks), stats.samples;
      var k := 0;
      while channel != []
        invariant Valid()
        invariant 0 <= k <= |ticks|
        invariant |channel| == |ticks| - k
        invariant stats.samples == samples0 + es[..k]
        invariant nextId == old(nextId) && jobs == old(jobs)
        decreases |channel|
      {
        var _, _ := ProcessOne(ticks[k].now, ticks[k].elapsed);
        PrefixStep(samples0, es, k);
        k := k + 1;
      }
      PrefixAll(samples0, es);
      AllFilled(nextId, rqstMap.requests, jobs, readyAt, hasher, requests0, queue0, readyAt0);
    }
  }

  /**
   * Package initialisation: make the channel with the configured capacity and
   * start one worker per iteration of a loop that re-reads the (memoised)
   * worker count. Returns the server and the number of workers started.
   */
  method Init(cfg: Config, channelSizeEnv: string, numOfWorkersEnv: string, hasher: string -> string)
    returns (server: Server, workers: int)
    requires cfg.Valid()
    requires DigestsWellFormed(hasher)
    modifies cfg
    ensures cfg.Valid() && fresh(server) && server.Valid()
    ensures server.capacity == cfg.channelSize
    ensures server.capacity == if old(cfg.channelSize) != 0 then old(cfg.channelSize) else ChannelSizeFor(channelSizeEnv)
    ensures workers == cfg.numOfWorkers
    ensures workers == if old(cfg.numOfWorkers) != 0 then old(cfg.numOfWorkers) else NumOfWorkersFor(numOfWorkersEnv)
    ensures MIN_NUM_OF_WORKERS <= workers <= MAX_NUM_OF_WORKERS
    ensures server.nextId == 0 && server.channel == [] && server.rqstMap.requests == map[]
  {
    var size := cfg.GetChannelSize(channelSizeEnv);
    server := new Server(size, hasher);
    workers := 0;
    var limit := cfg.GetNumOfWorkers(numOfWorkersEnv);
    ghost var first := limit;
    while workers < limit
      modifies cfg
      invariant cfg.Valid() && cfg.channelSize == size
      invariant limit == first == cfg.numOfWorkers
      invariant 0 <= workers <= limit
    {
      workers := workers + 1;
      limit := cfg.GetNumOfWorkers(numOfWorkersEnv);
    }
  }
}
