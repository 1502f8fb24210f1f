# Job bookkeeping of a password-hashing web server, in Dafny

The server accepts a password on `POST /hash`, answers at once with a new job
id, and hashes the password in the background. A pool of workers takes jobs
from a bounded channel. Each worker waits until the clock, read in whole Unix
seconds, shows the submission second plus five. It then stores the SHA-512
digest (base64-encoded) in a request map and records the time the hashing took
in running statistics. Clients poll
`GET /hash/<id>` until the digest is there.

This project models the bookkeeping behind that flow. The model takes each
handler call and each worker iteration as one indivisible step. The server's
locks do not give that: they guard single map and statistics updates, not a
whole call (see "## Left out").

- `golib.dfy`, module `GoLib`: the Go behaviour the server relies on.
  - `int64` as a newtype with explicit wrap-around (`Wrap64`).
  - Truncating division by two (`Half`).
  - `strconv.ParseInt` in base 10 (`ParseInt`) and decimal printing of integers (`FormatInt`).
  - `strings.Split` and `strings.Join` with a one-character separator.
- `utils.dfy`, module `Utils`: the three pieces of shared state.
  - `RequestMap`: a job id maps to its digest, and `""` means pending. The Go map starts out nil and is made on the first `Add`.
  - `ServerStatistics`: a sample count and a lossy running average. A ghost history of samples is tied to the fields through the function `Aggregate`.
  - `Config`: the memoised, clamped `CHANNEL_SIZE` and `NUM_OF_WORKERS` values.
- `handlers.dfy`, module `Handlers`: the job lifecycle.
  - `Server.CalculateHash` submits a job.
  - `Server.ProcessOne` is one iteration of the worker loop.
  - `Server.Drain` runs that loop until the closed channel is empty.
  - `Server.GetHash` looks a job up.
  - `Init` is package initialisation.
  - All of these keep the invariant `Consistent`:
    - the ids handed out are exactly 1..nextId;
    - the queue is in id order;
    - an entry is empty exactly when its job is still queued;
    - a filled entry holds the digest of its job's password, stored no earlier than the submission's Unix second plus five.
  - The lemmas `FetchIssued`, `FetchUnissued` and `FetchNonPositive` connect this invariant to what a client sees when it polls.

Outside inputs are parameters.
- The clock (`now`, `elapsed`) is passed in. `now` is in whole Unix seconds, as `time.Now().Unix()` gives it, so a job submitted late in a second can be stored a little over four seconds after the actual submission.
- The environment values are passed in as strings.
- The digest function is passed in as `hasher`. All that is assumed of it is that its output is 88 characters long, the length of a base64-encoded 64-byte sum.

## Model

| member | source | states |
|---|---|---|
| `GoLib.Wrap64` | utils.go:77 | an int64 increment or addition keeps the true value when it fits; in every case the result differs from the true value by a multiple of 2^64, which with the int64 range fixes it, including wrap past the maximum |
| `GoLib.Half` | utils.go:78 | Go's `x / 2` truncates toward zero: for negative sums the quotient rounds up, unlike Euclidean division |
| `GoLib.FormatInt` | handlers.go:96 | the printed id starts with a minus sign exactly when it is negative, and the rest is one or more decimal digits |
| `GoLib.FormatDecimal` | handlers.go:96 | printing an id gives a non-empty string of decimal digits with no leading zero |
| `GoLib.DecimalRoundTrip` | handlers.go:96 | the digits printed for a natural number read back as that number |
| `GoLib.ParseInt` | handlers.go:120 | `strconv.ParseInt` in base 10 only succeeds with a value inside the signed range of the requested bit size; which strings it accepts and what it reads from them is stated by `ParseIntAccepted` and `ParseIntOfSpelling` |
| `GoLib.ParseIntAccepted` | handlers.go:120 | every string `ParseInt` accepts is an optional `+` or `-`, then zeros, then the shortest digits of the magnitude of the value read; a negative value always has the minus sign and a positive one never does |
| `GoLib.ParseIntOfSpelling` | handlers.go:120 | conversely, every optional sign, run of zeros and shortest digits of a magnitude parses to that signed magnitude when it fits in the bit size, and is an error otherwise |
| `GoLib.ParseFormatInt` | utils.go:110 | a printed integer parses back to itself when it fits in the bit size, and is an error otherwise |
| `GoLib.Split` | handlers.go:104 | `strings.Split` gives at least one piece, and no piece contains the separator |
| `GoLib.JoinSplit` | handlers.go:104 | joining the pieces of `strings.Split` with the separator gives back the original path |
| `GoLib.SplitWithoutSep` | handlers.go:104 | a string without the separator splits into the single piece itself |
| `GoLib.SplitAtFirst` | handlers.go:104 | the text before the first separator is the first piece, and the rest is split on its own |
| `Utils.RequestMap.constructor` | utils.go:26-29 | the zero-valued map is nil and empty |
| `Utils.RequestMap.Add` | utils.go:31-38 | afterwards the map is made, the key maps to the new value, and every other key keeps its presence and value |
| `Utils.RequestMap.Get` | utils.go:40-45 | found exactly when the key is present, with its value; otherwise `("", false)`, including on the nil map; the map is not modified |
| `Utils.Record` | utils.go:73-79 | one `Add` on the record: the first sample becomes the average with total 1; a later one raises the total by one before wrap, and, without overflow, the new average lies between the old average and the sample |
| `Utils.Aggregate` | utils.go:69-80 | the record after a history of samples; after n samples (n below 2^63) the total is exactly n |
| `Utils.AggregateStep` | utils.go:73-79 | each sample raises the total by one, and the first sample becomes the average |
| `Utils.AverageWithinSamples` | utils.go:69-80 | with non-negative samples small enough not to overflow the sum, the lossy average lies between the smallest and the largest sample |
| `Utils.AggregateExample` | utils.go:73-79 | samples 100, 200, 300 give total 3 and average 225 |
| `Utils.AverageOverflowExample` | utils.go:78 | two samples of 2^62 make `Average + microsec` wrap, leaving a negative average |
| `Utils.ServerStatistics.constructor` | handlers.go:26 | the statistics start at total 0, average 0 and an empty history |
| `Utils.ServerStatistics.Add` | utils.go:69-80 | the sample is appended to the history and the fields stay equal to its aggregate: the first sample sets total 1 and average to the sample, and a later one increments the total and halves the sum, truncating |
| `Utils.ServerStatistics.Snapshot` | utils.go:82-91 | the reported `{total, average}` record is the aggregate of every sample recorded |
| `Utils.FromEnv` | utils.go:108-125 | the value is always within range; an empty or unparsable value gives the default; a 32-bit value inside the range is kept, one below it gives the lower bound and one above it the upper bound |
| `Utils.Clamp` | utils.go:115-121 | the result lies in the range, is the input when that is in range, and is the nearer bound otherwise |
| `Utils.ChannelSizeFor` | utils.go:108-125 | the queue capacity for a `CHANNEL_SIZE` value is in [256, 16384], and is 256 when the value does not parse |
| `Utils.NumOfWorkersFor` | utils.go:135-152 | the worker count for a `NUM_OF_WORKERS` value is in [10, 100], and is 10 when the value does not parse |
| `Utils.ChannelSizeOfNumber` | utils.go:103-128 | a decimal `CHANNEL_SIZE` is clamped to [256, 16384] when it fits in 32 bits and gives 256 (not 16384) when it does not |
| `Utils.NumOfWorkersOfNumber` | utils.go:130-155 | a decimal `NUM_OF_WORKERS` is clamped to [10, 100] when it fits in 32 bits and gives 10 when it does not |
| `Utils.Config.constructor` | utils.go:100-101 | both cached globals start at zero |
| `Utils.Config.GetChannelSize` | utils.go:103-128 | the result is in [256, 16384]; the first call computes it from the environment value and caches it; later calls return the cached value whatever the environment says |
| `Utils.Config.GetNumOfWorkers` | utils.go:130-155 | the result is in [10, 100]; it is computed once and cached in the same way |
| `Handlers.Wait` | handlers.go:35-38 | the worker sleeps for the shortest non-negative time after which the clock has reached submission time + 5 seconds |
| `Handlers.AcceptPreserves` | handlers.go:86-94 | the next id is not yet in the map; adding it as pending and appending its job to the queue keeps the lifecycle invariant |
| `Handlers.DequeuePending` | handlers.go:45 | filling the head job's entry with a non-empty digest keeps "empty exactly when queued" for the rest of the queue |
| `Handlers.ProcessPreserves` | handlers.go:31-50 | the head job's entry is pending; filling it with the digest of its password, after the wait, and dropping the job from the queue keeps the lifecycle invariant |
| `Handlers.ParseHashPath` | handlers.go:104-129 | a path that passes the segment and id checks names a positive id |
| `Handlers.ParseJobPath` | handlers.go:104-129 | `<pre>/hash/<d>` with no other `/` names the id `d` spells when it is a positive int64, and is an invalid id otherwise |
| `Handlers.ParseHashPathRoute` | handlers.go:104-116 | a path is routed (not a 404) exactly when it is `<pre>/hash/<d>` with no other `/` |
| `Handlers.ParseHashPathJob` | handlers.go:104-129 | a path names job `id` exactly when it is `<pre>/hash/<d>` with no other `/` and `d` parses as the positive int64 `id` |
| `Handlers.Fetch` | handlers.go:104-142 | no route exactly for an unrouted path, an invalid id exactly for a bad id segment, not found exactly for an absent id, not ready exactly for a pending entry, and otherwise the stored non-empty digest |
| `Handlers.HashPath` | handlers.go:96 | the path polled for a printed id splits into the empty piece, `hash` and the printed id |
| `Handlers.ParseHashPathOfId` | handlers.go:104-129 | `/hash/` followed by the printed id names exactly that id when it is positive, and is an invalid id otherwise |
| `Handlers.FetchNonPositive` | handlers.go:126-129 | polling a zero or negative id gives InvalidId, whatever the map holds |
| `Handlers.FetchUnissued` | handlers.go:132-136 | polling an id above the counter gives NotFound |
| `Handlers.FetchIssued` | handlers.go:132-142 | polling an issued id gives NotReady while its job is queued, and afterwards the digest of the password submitted with it |
| `Handlers.Server.constructor` | handlers.go:24-27 | the globals start zero-valued: counter 0, an empty map that is still nil, empty statistics, empty channel |
| `Handlers.Server.CalculateHash` | handlers.go:80-96 | an empty password changes nothing. Otherwise the id is the old counter + 1 and was never used before, the map gains only that id as pending, the job is appended to the channel and remembered under its id, every older entry is unchanged, and the invariant holds |
| `Handlers.Server.ProcessOne` | handlers.go:31-50 | the job taken is the head of the channel (FIFO order). Its entry was pending and now holds the digest of its password. Entries filled earlier are unchanged, one statistics sample is added, the remembered jobs are unchanged, and the wait is `Wait(startTime, now)` |
| `Handlers.Server.GetHash` | handlers.go:102-143 | the outcome is the classification `Fetch` of the path against the map, and the map is not modified. The lines written are `404 page not found`, `Invalid request ID` or `Request not found` for the errors and the digest when ready. A pending entry writes `Request not ready` and then an empty line, because the handler does not return after the error |
| `Handlers.AllFilled` | handlers.go:29-55 | with the queue empty, every entry holds the non-empty digest of its job's password, each job queued earlier has its digest, and entries filled earlier are kept |
| `Handlers.Server.Drain` | handlers.go:29-59 | after the worker loop has drained the channel, the set of ids and the remembered jobs are unchanged; every entry holds the non-empty digest of its job's password, in particular each job that was queued; entries filled before are unchanged; and the history gained the ticks' elapsed times, in order |
| `Handlers.Init` | handlers.go:61-66 | the channel gets the configured capacity. Workers are started while the loop counter is below a worker count that is read again on each iteration; because that count is memoised, exactly the configured number in [10, 100] is started |

## Left out

- The HTTP layer is not modelled: routing, method checks, `ParseForm`, status codes and response headers. Only the lines `GetHash` writes are modelled.
- Concurrency is not modelled: goroutines, the `RWMutex`/`Mutex` locks, the `WaitGroup`, and interleaving between workers. Each handler call and each worker iteration is one step of the model, and `Drain` runs a single worker over the queue.
- The shutdown path (`Shutdown`, `StopIt`, closing the channel in `main`) is not modelled. Nor is the shadowed `TheDumbo` in main.go; it is process wiring.
- `Handlers.Server.CalculateHash`: requires room in the channel. In the source, a send on a full channel blocks the submitter (backpressure) after its id and pending entry already exist. That blocked intermediate state is not modelled.
- `Handlers.Server.CalculateHash`: the id increment (handlers.go:87), the locked `Add` (handlers.go:92) and the channel send (handlers.go:94) are three separately synchronised steps. Two concurrent submitters can therefore send their jobs against id order. The model takes a submission as one step, so the queue order `Ordered` is a property of the model only.
- `Handlers.Server.CalculateHash`: requires the counter to be below 2^63 - 1. The wrap-around of `atomic.AddInt64` to a negative id is not modelled.
- `Handlers.Server.ProcessOne`: the worker takes the job off the channel, then sleeps with no lock held (handlers.go:35-38), and only then stores the digest (handlers.go:45). A poll during that sleep gets "Request not ready" for a job that is no longer in the channel. The model takes dequeue and store as one step. So in the server, "queued" in `PendingIffQueued` and in `FetchIssued`'s not-ready case means "queued or being processed".
- `Handlers.Server.ProcessOne`: the wait is computed on unbounded integers. `startTime + 5` overflows int64 only when the clock is within 5 seconds of 2^63 seconds. `Duration * time.Second` overflows only when `now` is more than about 292 years before `startTime + 5`. Neither overflow is modelled.
- SHA-512 and base64 are foreign library calls. They are a given function `hasher` whose only assumed property is the 88-character length.
- `time.Now`, `time.Sleep` and the elapsed-time measurement are parameters: `now`, `elapsed` and the `Tick`s passed to `Drain`.
- `os.Getenv` is replaced by the environment value, passed in as a string.
- JSON marshalling of the statistics is left out, and so is its `log.Fatalf` on failure. `Snapshot` returns the `{total, average}` record.
- Logging and the `Dump` methods are left out because they are diagnostics only.
- `Utils.AverageWithinSamples`: holds only for samples up to 2^62 - 1 microseconds and fewer than 2^63 samples. Above that, `Average + microsec` wraps (see `AverageOverflowExample`), and so does the total.
- `Utils.Aggregate`: the total is stated only for fewer than 2^63 samples. `Total += 1` wraps after that.
- `ParseInt` merges Go's syntax and range errors into one error result. The server only tests `err != nil`.
- A lookup of a pending entry writes the error line and then an empty line, because the handler does not return after the error (handlers.go:138-142). The model writes both lines.
- A `CHANNEL_SIZE` or `NUM_OF_WORKERS` value outside the 32-bit range is a parse error and gives the default, not the nearer bound (utils.go:110-113, 137-140). The model does the same.
