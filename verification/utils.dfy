/**
 * The shared bookkeeping of the hashing server: the request map from job id
 * to encoded digest, the server statistics with their lossy running average,
 * and the memoised configuration values for the queue capacity and the
 * number of workers.
 */
module Utils {
  import opened GoLib

  const DEFAULT_CHANNEL_SIZE: int := 256
  const MIN_CHANNEL_SIZE: int := 256
  const MAX_CHANNEL_SIZE: int := 16384
  const DEFAULT_NUM_OF_WORKERS: int := 10
  const MIN_NUM_OF_WORKERS: int := 10
  const MAX_NUM_OF_WORKERS: int := 100

  // ---------------------------------------------------------------------
  // Request map

  /**
   * Job id to encoded digest; the empty string means "received, not yet
   * hashed". Go's map starts out nil and is made on the first Add; `made`
   * records whether that has happened. Reading a nil map finds nothing.
   */
  class RequestMap {
    var requests: map<int64, string>
    var made: bool

    ghost predicate Valid()
      reads this
    {
      !made ==> requests == map[]
    }

    constructor ()
      ensures Valid() && !made && requests == map[]
    {
      requests := map[];
      made := false;
    }

    /** Inserts or overwrites the entry for `key`, making the map first if it is nil. */
    method Add(key: int64, value: string)
      requires Valid()
      modifies this
      ensures Valid() && made
      ensures requests == old(requests)[key := value]
    {
      if !made {
        requests := map[];
        made := true;
      }
      requests := requests[key := value];
    }

    /** The stored value and whether `key` is present; `("", false)` for an unknown key. */
    method Get(key: int64) returns (value: string, found: bool)
      requires Valid()
      ensures found <==> key in requests
      ensures found ==> value == requests[key]
      ensures !found ==> value == ""
      ensures !made ==> !found && value == ""
    {
      if key in requests {
        value, found := requests[key], true;
      } else {
        value, found := "", false;
      }
    }
  }

  // ---------------------------------------------------------------------
  // Server statistics

  /** The `{total, average}` record the statistics endpoint reports. */
  datatype Stats = Stats(total: int64, average: int64)

  /** The largest sample for which `Average + sample` cannot overflow. */
  const SAFE_SAMPLE: int := 0x3FFF_FFFF_FFFF_FFFF

  /**
   * One call of `ServerStatistics.Add`: the first sample (total zero) is taken
   * as the average; every later one increments the total and halves the sum
   * of the old average and the sample, with int64 wrap-around and Go's
   * truncating division.
   */
  function Record(s: Stats, sample: int64): (r: Stats)
    ensures s.total == 0 ==> r == Stats(1, sample)
    ensures 0 < s.total as int < INT64_MAX ==> r.total as int == s.total as int + 1
    ensures s.total != 0 && 0 <= s.average as int <= SAFE_SAMPLE && 0 <= sample as int <= SAFE_SAMPLE ==>
              && (s.average <= r.average <= sample || sample <= r.average <= s.average)
  {
    if s.total == 0 then Stats(1, sample)
    else Stats(Wrap64(s.total as int + 1), Half(Wrap64(s.average as int + sample as int) as int) as int64)
  }

  /** The statistics after recording `samples`, in order, on the zero-valued record. */
  function Aggregate(samples: seq<int64>): (r: Stats)
    ensures |samples| <= INT64_MAX ==> r.total as int == |samples|
  {
    if samples == [] then Stats(0, 0)
    else Record(Aggregate(samples[..|samples| - 1]), samples[|samples| - 1])
  }

  /** A later sample raises the total by exactly one (before wrap-around). */
  lemma AggregateStep(samples: seq<int64>, sample: int64)
    requires |samples| < INT64_MAX
    ensures Aggregate(samples + [sample]).total as int == Aggregate(samples).total as int + 1
    ensures samples == [] ==> Aggregate(samples + [sample]).average == sample
  {
    assert (samples + [sample])[..|samples|] == samples;
  }

  function MinSample(samples: seq<int64>): (m: int64)
    requires samples != []
    ensures forall i :: 0 <= i < |samples| ==> m <= samples[i]
    ensures m in samples
  {
    if |samples| == 1 then samples[0]
    else
      var m := MinSample(samples[..|samples| - 1]);
      if samples[|samples| - 1] < m then samples[|samples| - 1] else m
  }

  function MaxSample(samples: seq<int64>): (m: int64)
    requires samples != []
    ensures forall i :: 0 <= i < |samples| ==> samples[i] <= m
    ensures m in samples
  {
    if |samples| == 1 then samples[0]
    else
      var m := MaxSample(samples[..|samples| - 1]);
      if samples[|samples| - 1] > m then samples[|samples| - 1] else m
  }

  /**
   * With non-negative samples small enough that `Average + sample` never
   * overflows, the lossy average stays between the smallest and the largest
   * sample seen.
   */
  lemma {:induction false} AverageWithinSamples(samples: seq<int64>)
    requires samples != [] && |samples| <= INT64_MAX
    requires forall i :: 0 <= i < |samples| ==> 0 <= samples[i] as int <= SAFE_SAMPLE
    ensures MinSample(samples) <= Aggregate(samples).average <= MaxSample(samples)
  {
    var prefix := samples[..|samples| - 1];
    if prefix != [] {
      AverageWithinSamples(prefix);
    }
  }

  /** Samples 100, 200 and 300 give total 3 and average ((100 + 200) / 2 + 300) / 2 = 225. */
  lemma AggregateExample()
    ensures Aggregate([100, 200, 300]) == Stats(3, 225)
  {
    var s: seq<int64> := [100, 200, 300];
    assert s[..2] == [100, 200];
    assert s[..2][..1] == [100];
    assert Aggregate([100]) == Stats(1, 100);
    assert Aggregate([100, 200]) == Stats(2, 150);
  }

  /**
   * Above SAFE_SAMPLE the sum wraps: two samples of 2^62 microseconds leave a
   * negative average, so AverageWithinSamples needs its bound.
   */
  lemma AverageOverflowExample()
    ensures Aggregate([0x4000_0000_0000_0000, 0x4000_0000_0000_0000]) == Stats(2, -0x4000_0000_0000_0000)
  {
    var s: seq<int64> := [0x4000_0000_0000_0000, 0x4000_0000_0000_0000];
    assert s[..1] == [0x4000_0000_0000_0000];
  }

  /**
   * The process-wide statistics. `samples` is the history of recorded
   * samples; the fields always equal the aggregate of that history.
   */
  class ServerStatistics {
    var total: int64
    var average: int64
    ghost var samples: seq<int64>

    ghost predicate Valid()
      reads this
    {
      Stats(total, average) == Aggregate(samples)
    }

    constructor ()
      ensures Valid() && samples == [] && total == 0 && average == 0
    {
      total, average := 0, 0;
      samples := [];
    }

    /** Records one processing time, in microseconds. */
    method Add(microsec: int64)
      requires Valid()
      modifies this
      ensures Valid() && samples == old(samples) + [microsec]
      ensures old(total) == 0 ==> total == 1 && average == microsec
      ensures old(total) != 0 ==>
                total == Wrap64(old(total) as int + 1) &&
                average as int == Half(Wrap64(old(average) as int + microsec as int) as int)
    {
      if total == 0 {
        total := 1;
        average := microsec;
      } else {
        total := Wrap64(total as int + 1);
        average := Half(Wrap64(average as int + microsec as int) as int) as int64;
      }
      samples := samples + [microsec];
      assert samples[..|samples| - 1] == old(samples);
    }

    /** The `{total, average}` record that the statistics endpoint serialises. */
    method Snapshot() returns (s: Stats)
      requires Valid()
      ensures s == Aggregate(samples)
    {
      s := Stats(total, average);
    }
  }

  // ---------------------------------------------------------------------
  // Configuration

  /**
   * A configuration value read from the environment: the default when the
   * variable is empty or not a 32-bit decimal integer, otherwise the value
   * clamped to `[lo, hi]`.
   */
  function FromEnv(env: string, lo: int, hi: int, default: int): (r: int)
    requires lo <= default <= hi
    ensures lo <= r <= hi
    ensures env == "" ==> r == default
    ensures ParseInt(env, Bits32).None? ==> r == default
    ensures ParseInt(env, Bits32).Some? && lo <= ParseInt(env, Bits32).value <= hi ==> r == ParseInt(env, Bits32).value
    ensures ParseInt(env, Bits32).Some? && ParseInt(env, Bits32).value < lo ==> r == lo
    ensures ParseInt(env, Bits32).Some? && ParseInt(env, Bits32).value > hi ==> r == hi
  {
    if env == "" then default
    else match ParseInt(env, Bits32)
      case None => default
      case Some(i) => Clamp(i, lo, hi)
  }

  /** The nearest value to `n` in `[lo, hi]`. */
  function Clamp(n: int, lo: int, hi: int): (r: int)
    requires lo <= hi
    ensures lo <= r <= hi
    ensures lo <= n <= hi ==> r == n
    ensures n < lo ==> r == lo
    ensures n > hi ==> r == hi
  {
    if n < lo then lo else if n > hi then hi else n
  }

  /** The queue capacity for a `CHANNEL_SIZE` value. */
  function ChannelSizeFor(env: string): (size: int)
    ensures MIN_CHANNEL_SIZE <= size <= MAX_CHANNEL_SIZE
    ensures ParseInt(env, Bits32).None? ==> size == DEFAULT_CHANNEL_SIZE
  {
    FromEnv(env, MIN_CHANNEL_SIZE, MAX_CHANNEL_SIZE, DEFAULT_CHANNEL_SIZE)
  }

  /** The worker count for a `NUM_OF_WORKERS` value. */
  function NumOfWorkersFor(env: string): (n: int)
    ensures MIN_NUM_OF_WORKERS <= n <= MAX_NUM_OF_WORKERS
    ensures ParseInt(env, Bits32).None? ==> n == DEFAULT_NUM_OF_WORKERS
  {
    FromEnv(env, MIN_NUM_OF_WORKERS, MAX_NUM_OF_WORKERS, DEFAULT_NUM_OF_WORKERS)
  }

  /**
   * For a `CHANNEL_SIZE` written as a decimal number: the number clamped to
   * [256, 16384] when it fits in 32 bits, and the default 256 when it does not
   * (a too-large number is a parse error, not a request for the maximum).
   */
  lemma ChannelSizeOfNumber(n: int)
    ensures ChannelSizeFor(FormatInt(n)) ==
      if INT32_MIN <= n <= INT32_MAX then Clamp(n, MIN_CHANNEL_SIZE, MAX_CHANNEL_SIZE) else DEFAULT_CHANNEL_SIZE
  {
    ParseFormatInt(n, Bits32);
  }

  /** The same rule for `NUM_OF_WORKERS`, with range [10, 100] and default 10. */
  lemma NumOfWorkersOfNumber(n: int)
    ensures NumOfWorkersFor(FormatInt(n)) ==
      if INT32_MIN <= n <= INT32_MAX then Clamp(n, MIN_NUM_OF_WORKERS, MAX_NUM_OF_WORKERS) else DEFAULT_NUM_OF_WORKERS
  {
    ParseFormatInt(n, Bits32);
  }

  /**
   * The package-level globals `channelsize` and `numofworker`: zero until
   * first computed, then cached for the life of the process.
   */
  class Config {
    var channelSize: int
    var numOfWorkers: int

    ghost predicate Valid()
      reads this
    {
      && (channelSize == 0 || MIN_CHANNEL_SIZE <= channelSize <= MAX_CHANNEL_SIZE)
      && (numOfWorkers == 0 || MIN_NUM_OF_WORKERS <= numOfWorkers <= MAX_NUM_OF_WORKERS)
    }

    constructor ()
      ensures Valid() && channelSize == 0 && numOfWorkers == 0
    {
      channelSize, numOfWorkers := 0, 0;
    }

    /** The queue capacity, computed from `env` (the value of `CHANNEL_SIZE`) on first use only. */
    method GetChannelSize(env: string) returns (size: int)
      requires Valid()
      modifies this`channelSize
      ensures Valid()
      ensures MIN_CHANNEL_SIZE <= size <= MAX_CHANNEL_SIZE && channelSize == size
      ensures old(channelSize) != 0 ==> size == old(channelSize)
      ensures old(channelSize) == 0 ==> size == ChannelSizeFor(env)
    {
      if channelSize != 0 {
        return channelSize;
      }
      if env != "" {
        var parsed := ParseInt(env, Bits32);
        if parsed.None? {
          channelSize := DEFAULT_CHANNEL_SIZE;
        } else if parsed.value < 256 {
          channelSize := 256;
        } else if parsed.value > 16384 {
          channelSize := 16384;
        } else {
          channelSize := parsed.value;
        }
      } else {
        channelSize := DEFAULT_CHANNEL_SIZE;
      }
      size := channelSize;
    }

    /** The worker count, computed from `env` (the value of `NUM_OF_WORKERS`) on first use only. */
    method GetNumOfWorkers(env: string) returns (n: int)
      requires Valid()
      modifies this`numOfWorkers
      ensures Valid()
      ensures MIN_NUM_OF_WORKERS <= n <= MAX_NUM_OF_WORKERS && numOfWorkers == n
      ensures old(numOfWorkers) != 0 ==> n == old(numOfWorkers)
      ensures old(numOfWorkers) == 0 ==> n == NumOfWorkersFor(env)
    {
      if numOfWorkers != 0 {
        return numOfWorkers;
      }
      if env != "" {
        var parsed := ParseInt(env, Bits32);
        if parsed.None? {
          numOfWorkers := DEFAULT_NUM_OF_WORKERS;
        } else if parsed.value < 10 {
          numOfWorkers := 10;
        } else if parsed.value > 100 {
          numOfWorkers := 100;
        } else {
          numOfWorkers := parsed.value;
        }
      } else {
        numOfWorkers := DEFAULT_NUM_OF_WORKERS;
      }
      n := numOfWorkers;
    }
  }
}
