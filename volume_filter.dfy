/** Which partitions of the listing get a row, and in which order. The four
    checks of the scan loop are, in order: the optional filter, the noise
    filesystem types, the system mount-point prefixes and the usage query. */
module VolumeFilter {
  import opened DiskTypes
  import opened RowFormat

  /** Filesystem types never shown. */
  const NoiseTypes: seq<string> := ["tmpfs", "devtmpfs", "squashfs", "overlay", "efivarfs", "vfat"]
  /** Mount-point prefixes never shown; the test is a plain string prefix. */
  const SystemPrefixes: seq<string> := ["/sys", "/proc", "/dev", "/run", "/snap"]

  /** Python truthiness of the optional filter: absent and "" both count as no filter. */
  predicate Given(filter: Option<string>)
  {
    filter.Some? && filter.value != ""
  }

  /** The filter after the normalisation at the top of the report. */
  function NormalizedFilter(specificMount: Option<string>, os: Os): (f: Option<string>)
    ensures Given(specificMount) ==> f == Some(os.normPath(specificMount.value))
    ensures !Given(specificMount) ==> !Given(f)
  {
    if Given(specificMount) then Some(os.normPath(specificMount.value)) else specificMount
  }

  /** `str.startswith` with a tuple of prefixes. */
  predicate StartsWithAny(s: string, prefixes: seq<string>)
  {
    prefixes != [] && (prefixes[0] <= s || StartsWithAny(s, prefixes[1..]))
  }

  /** Check 1: with a filter in force, the normalised mount point must equal it
      without regard to case, or the raw device must equal it exactly. */
  predicate MatchesFilter(p: Partition, filter: Option<string>, os: Os)
  {
    !Given(filter) || os.lower(os.normPath(p.mountpoint)) == os.lower(filter.value) || p.device == filter.value
  }

  /** Check 2. */
  predicate IsNoise(fstype: string)
  {
    fstype in NoiseTypes
  }

  /** Check 3, on the raw (not normalised) mount point. */
  predicate IsSystemMount(mountpoint: string)
  {
    StartsWithAny(mountpoint, SystemPrefixes)
  }

  /** A partition gets a row when it passes all four checks. */
  predicate Kept(p: Partition, filter: Option<string>, os: Os)
  {
    && MatchesFilter(p, filter, os)
    && !IsNoise(p.fstype)
    && !IsSystemMount(p.mountpoint)
    && os.diskUsage(p.mountpoint).Some?
  }

  /** The row of a kept partition. */
  function RowOf(p: Partition, filter: Option<string>, os: Os): Row
    requires Kept(p, filter, os)
  {
    MakeRow(p, os.diskUsage(p.mountpoint).value)
  }

  /** The rows of a listing under an already normalised filter: one row per kept
      partition, in listing order. */
  function ReportRows(parts: seq<Partition>, filter: Option<string>, os: Os): (rows: seq<Row>)
    ensures |rows| <= |parts|
  {
    if parts == [] then []
    else
      var n := |parts| - 1;
      ReportRows(parts[..n], filter, os) +
        (if Kept(parts[n], filter, os) then [RowOf(parts[n], filter, os)] else [])
  }

  /** The positions in the listing of the kept partitions, in order. */
  ghost function KeptIndices(parts: seq<Partition>, filter: Option<string>, os: Os): seq<nat>
  {
    if parts == [] then []
    else
      var n := |parts| - 1;
      KeptIndices(parts[..n], filter, os) + (if Kept(parts[n], filter, os) then [n] else [])
  }

  // ---------------------------------------------------------------------------
  // What the rows are

  /** The kept positions are increasing positions of the listing, each of a
      kept partition, and every kept partition's position is among them. */
  lemma {:induction false} KeptIndicesAreKeptPositions(parts: seq<Partition>, filter: Option<string>, os: Os)
    ensures forall k :: 0 <= k < |KeptIndices(parts, filter, os)| ==>
              KeptIndices(parts, filter, os)[k] < |parts| && Kept(parts[KeptIndices(parts, filter, os)[k]], filter, os)
    ensures forall k1, k2 :: 0 <= k1 < k2 < |KeptIndices(parts, filter, os)| ==>
              KeptIndices(parts, filter, os)[k1] < KeptIndices(parts, filter, os)[k2]
    ensures forall j :: 0 <= j < |parts| && Kept(parts[j], filter, os) ==> j in KeptIndices(parts, filter, os)
  {
    if parts != [] {
      var n := |parts| - 1;
      var init := parts[..n];
      KeptIndicesAreKeptPositions(init, filter, os);
      var idx, idx0 := KeptIndices(parts, filter, os), KeptIndices(init, filter, os);
      assert idx == idx0 + (if Kept(parts[n], filter, os) then [n] else []);
      assert forall j :: 0 <= j < n ==> init[j] == parts[j];
      forall j | 0 <= j < |parts| && Kept(parts[j], filter, os)
        ensures j in idx
      {
        if j < n {
          assert Kept(init[j], filter, os);
        }
      }
    }
  }

  /** The rows are, in order, the rows of the partitions at the kept positions:
      with the lemma above, an order-preserving subsequence of the listing that
      holds every kept partition exactly once and nothing else. */
  lemma {:induction false} RowsFollowKeptPartitions(parts: seq<Partition>, filter: Option<string>, os: Os)
    ensures |ReportRows(parts, filter, os)| == |KeptIndices(parts, filter, os)|
    ensures forall k :: 0 <= k < |KeptIndices(parts, filter, os)| ==>
              KeptIndices(parts, filter, os)[k] < |parts|
              && Kept(parts[KeptIndices(parts, filter, os)[k]], filter, os)
              && ReportRows(parts, filter, os)[k] == RowOf(parts[KeptIndices(parts, filter, os)[k]], filter, os)
  {
    KeptIndicesAreKeptPositions(parts, filter, os);
    if parts != [] {
      var n := |parts| - 1;
      var init := parts[..n];
      RowsFollowKeptPartitions(init, filter, os);
      KeptIndicesAreKeptPositions(init, filter, os);
      var rows, rows0 := ReportRows(parts, filter, os), ReportRows(init, filter, os);
      var idx, idx0 := KeptIndices(parts, filter, os), KeptIndices(init, filter, os);
      if Kept(parts[n], filter, os) {
        assert rows == rows0 + [RowOf(parts[n], filter, os)];
        assert idx == idx0 + [n];
      } else {
        assert rows == rows0 && idx == idx0;
      }
      forall k | 0 <= k < |idx0|
        ensures rows[k] == RowOf(parts[idx[k]], filter, os)
      {
        assert rows[k] == rows0[k] && idx[k] == idx0[k] && init[idx0[k]] == parts[idx0[k]];
      }
    }
  }

  /** No row has a noise filesystem type or a system mount point, whatever the
      filter, even one that names the partition's device. */
  lemma {:induction false} NoNoiseRows(parts: seq<Partition>, filter: Option<string>, os: Os)
    ensures forall r :: r in ReportRows(parts, filter, os) ==>
              !IsNoise(r.fstype) && !IsSystemMount(r.mountpoint)
  {
    RowsFollowKeptPartitions(parts, filter, os);
  }

  /** With a filter in force every row matches it: by normalised mount point
      without regard to case, or by raw device against the normalised filter. */
  lemma {:induction false} FilterRows(parts: seq<Partition>, specificMount: string, os: Os)
    requires specificMount != "" && os.normPath(specificMount) != ""
    ensures forall r :: r in ReportRows(parts, NormalizedFilter(Some(specificMount), os), os) ==>
              os.lower(os.normPath(r.mountpoint)) == os.lower(os.normPath(specificMount))
              || r.device == os.normPath(specificMount)
  {
    RowsFollowKeptPartitions(parts, NormalizedFilter(Some(specificMount), os), os);
  }

  /** With no filter in force (absent, empty, or normalised to empty) nothing is
      selected out: every partition that passes the other three checks has its
      row. */
  lemma {:induction false} NoFilterKeepsAll(parts: seq<Partition>, specificMount: Option<string>, os: Os)
    requires !Given(NormalizedFilter(specificMount, os))
    ensures forall j ::
              (0 <= j < |parts| && !IsNoise(parts[j].fstype) && !IsSystemMount(parts[j].mountpoint)
               && os.diskUsage(parts[j].mountpoint).Some?) ==>
              MakeRow(parts[j], os.diskUsage(parts[j].mountpoint).value)
                in ReportRows(parts, NormalizedFilter(specificMount, os), os)
  {
    var filter := NormalizedFilter(specificMount, os);
    RowsFollowKeptPartitions(parts, filter, os);
    KeptIndicesAreKeptPositions(parts, filter, os);
    var idx := KeptIndices(parts, filter, os);
    forall j | 0 <= j < |parts| && !IsNoise(parts[j].fstype) && !IsSystemMount(parts[j].mountpoint)
              && os.diskUsage(parts[j].mountpoint).Some?
      ensures MakeRow(parts[j], os.diskUsage(parts[j].mountpoint).value) in ReportRows(parts, filter, os)
    {
      assert Kept(parts[j], filter, os);
      var k :| 0 <= k < |idx| && idx[k] == j;
      assert ReportRows(parts, filter, os)[k] == RowOf(parts[j], filter, os);
    }
  }

  /** Some row is produced exactly when some partition passes all four checks. */
  lemma {:induction false} RowsNonEmptyIffKept(parts: seq<Partition>, filter: Option<string>, os: Os)
    ensures ReportRows(parts, filter, os) != [] <==> exists j :: 0 <= j < |parts| && Kept(parts[j], filter, os)
  {
    if parts != [] {
      var n := |parts| - 1;
      RowsNonEmptyIffKept(parts[..n], filter, os);
      if exists j :: 0 <= j < n && Kept(parts[..n][j], filter, os) {
        var j :| 0 <= j < n && Kept(parts[..n][j], filter, os);
        assert Kept(parts[j], filter, os);
      }
      if exists j :: 0 <= j < |parts| && Kept(parts[j], filter, os) {
        var j :| 0 <= j < |parts| && Kept(parts[j], filter, os);
        if j < n {
          assert Kept(parts[..n][j], filter, os);
        }
      }
    }
  }

  /** The system-prefix test is on strings, not path components: it also drops
      mount points such as `/system` or `/snapshots`, and it does not drop a raw
      mount point such as `/./proc` that only normalises to a system path. */
  lemma SystemPrefixIsTextual()
    ensures IsSystemMount("/system") && IsSystemMount("/snapshots") && IsSystemMount("/dev")
    ensures !IsSystemMount("/./proc") && !IsSystemMount("/") && !IsSystemMount("/home")
  {
    NoPrefixMatchesAt("/./proc", SystemPrefixes, 1);
    NoPrefixMatchesAt("/", SystemPrefixes, 1);
    NoPrefixMatchesAt("/home", SystemPrefixes, 1);
    assert SystemPrefixes[0] <= "/system";
    assert SystemPrefixes[4] <= "/snapshots";
    assert SystemPrefixes[2] <= "/dev";
  }

  /** A string starts with none of the prefixes when each prefix reaches
      position `i` and differs from the string there (or the string stops before). */
  lemma {:induction false} NoPrefixMatchesAt(s: string, prefixes: seq<string>, i: nat)
    requires forall k :: 0 <= k < |prefixes| ==> i < |prefixes[k]| && (i >= |s| || prefixes[k][i] != s[i])
    ensures !StartsWithAny(s, prefixes)
  {
    if prefixes != [] {
      assert !(prefixes[0] <= s);
      NoPrefixMatchesAt(s, prefixes[1..], i);
    }
  }
}
