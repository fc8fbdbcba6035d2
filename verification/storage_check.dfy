/** The storage self-check run by the background task: `testWriteAndReadFile`
    writes a fixed payload to a test file, reads it back and compares; a pass
    bumps a 16-bit counter, a failure parks the task for good in
    `foreverLoop`. `worker` repeats the check forever. The file system is a
    map from path to contents; what the medium does in a cycle (an `fopen`
    that fails, contents kept differently from what was written) is given as
    `Faults`. */
module StorageCheck {

  type Disk = map<string, seq<char>>

  const TestFile: string := "/storage/test.txt"
  const TestData: string := "hello world"

  /** What the medium keeps for the test file after the write. */
  datatype Kept = AsWritten | Damaged(content: seq<char>)

  /** The medium's behaviour in one cycle. */
  datatype Faults = Faults(createFails: bool, reopenFails: bool, kept: Kept)

  /** A medium that opens both times and returns what was written. */
  predicate Faithful(f: Faults) {
    !f.createFails && !f.reopenFails && f.kept == AsWritten
  }

  /** The test file's contents after `fopen(.., "wb")` truncated it and
      `fwrite` wrote the payload. */
  function Stored(f: Faults): seq<char> {
    match f.kept
    case AsWritten => TestData
    case Damaged(c) => c
  }

  /** `strncmp(a, b, n) == 0`: equal up to `n` characters, stopping after a
      NUL that both share. */
  function StrncmpEqual(a: seq<char>, b: seq<char>, n: nat): bool
    requires n <= |a| && n <= |b|
    decreases n
  {
    n == 0 || (a[0] == b[0] && (a[0] == '\0' || StrncmpEqual(a[1..], b[1..], n - 1)))
  }

  predicate NoNul(s: seq<char>) {
    forall i :: 0 <= i < |s| ==> s[i] != '\0'
  }

  /** Against a string without NUL, `strncmp` over its whole length is plain
      equality. */
  lemma {:induction false} StrncmpIsEquality(a: seq<char>, b: seq<char>)
    requires |a| == |b| && NoNul(a)
    ensures StrncmpEqual(a, b, |a|) <==> a == b
    decreases |a|
  {
    if |a| > 0 {
      StrncmpIsEquality(a[1..], b[1..]);
      if a[0] == b[0] && a[1..] == b[1..] {
        assert a == [a[0]] + a[1..] && b == [b[0]] + b[1..];
      }
    }
  }

  /** The round trip passes: both opens succeed, and the first
      `strlen(TEST_DATA)` bytes of the file are the payload. */
  predicate Passes(f: Faults) {
    && !f.createFails
    && !f.reopenFails
    && |TestData| <= |Stored(f)|
    && Stored(f)[..|TestData|] == TestData
  }

  datatype CheckResult = CheckResult(pass: bool, disk: Disk)

  /** The file I/O of one call of `testWriteAndReadFile`. */
  function RoundTrip(disk: Disk, f: Faults): (r: CheckResult)
    ensures r.pass <==> Passes(f)
    ensures f.createFails ==> r.disk == disk
    ensures !f.createFails ==> TestFile in r.disk && r.disk[TestFile] == Stored(f)
    ensures forall path :: path != TestFile ==> (path in r.disk <==> path in disk)
    ensures forall path :: path != TestFile && path in disk ==> r.disk[path] == disk[path]
  {
    if f.createFails then
      CheckResult(false, disk)
    else
      var written := disk[TestFile := Stored(f)];
      if f.reopenFails then
        CheckResult(false, written)
      else
        var content := written[TestFile];
        var nRead := if |content| < |TestData| then |content| else |TestData|;
        var buffer := content[..nRead];
        assert NoNul(TestData);
        StrncmpIsEquality(TestData, if nRead == |TestData| then buffer else TestData);
        var pass := nRead == |TestData| && StrncmpEqual(TestData, buffer, |TestData|);
        CheckResult(pass, written)
  }

  /** A faithful medium always passes. */
  lemma FaithfulPasses(disk: Disk, f: Faults)
    requires Faithful(f)
    ensures RoundTrip(disk, f).pass
  {
    assert TestData[..|TestData|] == TestData;
  }

  /** The pass counter, `uint16_t nTest`. */
  newtype Counter = x: int | 0 <= x < 0x1_0000

  /** `nTest += 1` on a `uint16_t`: wraps to 0 after 65535. */
  function Increment(n: Counter): (r: Counter)
    ensures n < 0xFFFF ==> r as int == n as int + 1
    ensures n == 0xFFFF ==> r == 0
  {
    ((n as int + 1) % 0x1_0000) as Counter
  }

  /** The background task: checking with `passes` checks behind it, or
      halted in `foreverLoop` for good. */
  datatype Monitor = Checking(passes: Counter) | Halted(passes: Counter)

  datatype Tick = Tick(monitor: Monitor, disk: Disk)

  /** One iteration of `worker`'s loop (the delay between iterations is left
      out). */
  function Cycle(m: Monitor, disk: Disk, f: Faults): (r: Tick)
    ensures m.Halted? ==> r == Tick(m, disk)
    ensures m.Checking? ==> r.disk == RoundTrip(disk, f).disk
    ensures m.Checking? ==> (r.monitor.Checking? <==> Passes(f))
    ensures m.Checking? && Passes(f) ==> r.monitor.passes == Increment(m.passes)
    ensures !Passes(f) ==> r.monitor.passes == m.passes
  {
    match m
    case Halted(_) => Tick(m, disk)
    case Checking(n) =>
      var check := RoundTrip(disk, f);
      if check.pass then Tick(Checking(Increment(n)), check.disk)
      else Tick(Halted(n), check.disk)
  }

  /** `worker` over a sequence of cycles. Halting is terminal: once halted,
      no check runs again and the counter and the file system stay as they
      are. */
  function Worker(m: Monitor, disk: Disk, faults: seq<Faults>): (r: Tick)
    ensures m.Halted? ==> r == Tick(m, disk)
    ensures r.monitor.Checking? ==> m.Checking? && AllPass(faults)
    decreases |faults|
  {
    if faults == [] then Tick(m, disk)
    else
      var t := Cycle(m, disk, faults[0]);
      var r := Worker(t.monitor, t.disk, faults[1..]);
      assert r.monitor.Checking? ==> AllPass(faults) by {
        if r.monitor.Checking? {
          assert forall i :: 1 <= i < |faults| ==> faults[i] == faults[1..][i - 1];
        }
      }
      r
  }

  /** `n + k` on the wrapping counter. */
  function AddWrapping(n: Counter, k: nat): Counter {
    ((n as int + k) % 0x1_0000) as Counter
  }

  predicate AllPass(faults: seq<Faults>) {
    forall i :: 0 <= i < |faults| ==> Passes(faults[i])
  }

  /** Every cycle that passes bumps the counter by one, mod 65536. */
  lemma {:induction false} PassingCyclesCount(c: Counter, disk: Disk, faults: seq<Faults>)
    requires AllPass(faults)
    ensures Worker(Checking(c), disk, faults).monitor == Checking(AddWrapping(c, |faults|))
    decreases |faults|
  {
    if faults != [] {
      var t := Cycle(Checking(c), disk, faults[0]);
      PassingCyclesCount(Increment(c), t.disk, faults[1..]);
    }
  }

  /** On a faithful medium the task never halts. */
  lemma FaithfulNeverHalts(c: Counter, disk: Disk, faults: seq<Faults>)
    requires forall i :: 0 <= i < |faults| ==> Faithful(faults[i])
    ensures Worker(Checking(c), disk, faults).monitor == Checking(AddWrapping(c, |faults|))
  {
    forall i | 0 <= i < |faults|
      ensures Passes(faults[i])
    {
      FaithfulPasses(disk, faults[i]);
    }
    PassingCyclesCount(c, disk, faults);
  }

  /** The task ends up halted exactly when some cycle fails, and then the
      counter holds the passes before the first failure. */
  lemma {:induction false} HaltsAtFirstFailure(c: Counter, disk: Disk, faults: seq<Faults>, k: nat)
    requires k < |faults| && AllPass(faults[..k]) && !Passes(faults[k])
    ensures Worker(Checking(c), disk, faults).monitor == Halted(AddWrapping(c, k))
    decreases k
  {
    var t := Cycle(Checking(c), disk, faults[0]);
    if k > 0 {
      assert Passes(faults[..k][0]);
      assert faults[1..][..k - 1] == faults[..k][1..];
      HaltsAtFirstFailure(Increment(c), t.disk, faults[1..], k - 1);
    }
  }

  /** The task is halted after a run exactly when some cycle of the run
      fails. */
  lemma HaltedIffSomeFailure(c: Counter, disk: Disk, faults: seq<Faults>)
    ensures Worker(Checking(c), disk, faults).monitor.Halted?
        <==> exists i :: 0 <= i < |faults| && !Passes(faults[i])
  {
    if exists i :: 0 <= i < |faults| && !Passes(faults[i]) {
      var k := FirstFailure(faults);
      HaltsAtFirstFailure(c, disk, faults, k);
    } else {
      PassingCyclesCount(c, disk, faults);
    }
  }

  /** The index of the first failing cycle. */
  function FirstFailure(faults: seq<Faults>): (k: nat)
    requires exists i :: 0 <= i < |faults| && !Passes(faults[i])
    ensures k < |faults| && !Passes(faults[k]) && AllPass(faults[..k])
    decreases |faults|
  {
    if !Passes(faults[0]) then 0
    else
      var k := FirstFailure(faults[1..]) + 1;
      assert faults[..k] == [faults[0]] + faults[1..][..k - 1];
      k
  }
}
