/** The scan loop of the report and the command-line dispatch around it. */
module Report {
  import opened DiskTypes
  import opened RowFormat
  import opened VolumeFilter

  /** What the report prints: the table of rows, or the message that no
      readable filesystem was found. */
  datatype Outcome = Table(rows: seq<Row>) | NoReadableFilesystems

  /** What one run of the program shows: the help text, or a scan, preceded by
      a "Checking volume" line when a filter was given. */
  datatype Screen = HelpText | Scan(checking: Option<string>, outcome: Outcome)

  /** The outcome of a report on `parts` for the command-line filter `specificMount`. */
  function DiskUsageOutcome(parts: seq<Partition>, specificMount: Option<string>, os: Os): (o: Outcome)
    ensures o.Table? ==> o.rows != [] && o.rows == ReportRows(parts, NormalizedFilter(specificMount, os), os)
    ensures o == NoReadableFilesystems <==>
              forall j :: 0 <= j < |parts| ==> !Kept(parts[j], NormalizedFilter(specificMount, os), os)
  {
    var rows := ReportRows(parts, NormalizedFilter(specificMount, os), os);
    RowsNonEmptyIffKept(parts, NormalizedFilter(specificMount, os), os);
    if rows != [] then Table(rows) else NoReadableFilesystems
  }

  /** The scan loop: each partition of the listing goes through the four
      checks in order and, when it passes them, contributes its row. */
  method PrintDiskUsage(partitions: seq<Partition>, specificMount: Option<string>, os: Os)
    returns (rows: seq<Row>, foundAny: bool, outcome: Outcome)
    ensures rows == ReportRows(partitions, NormalizedFilter(specificMount, os), os)
    ensures foundAny <==> rows != []
    ensures outcome == (if foundAny then Table(rows) else NoReadableFilesystems)
    ensures outcome == DiskUsageOutcome(partitions, specificMount, os)
  {
    rows, foundAny := [], false;
    var filter := specificMount;
    if Given(filter) {
      filter := Some(os.normPath(filter.value));
    }
    for i := 0 to |partitions|
      invariant rows == ReportRows(partitions[..i], filter, os)
      invariant foundAny <==> rows != []
    {
      var part := partitions[i];
      assert partitions[..i + 1][..i] == partitions[..i];
      var normMountpoint := os.normPath(part.mountpoint);
      if Given(filter) {
        if os.lower(normMountpoint) != os.lower(filter.value) && part.device != filter.value {
          continue;
        }
      }
      if part.fstype in NoiseTypes {
        continue;
      }
      if StartsWithAny(part.mountpoint, SystemPrefixes) {
        continue;
      }
      var usage := os.diskUsage(part.mountpoint);
      if usage.None? {
        continue;
      }
      foundAny := true;
      rows := rows + [MakeRow(part, usage.value)];
    }
    assert partitions[..|partitions|] == partitions;
    outcome := if foundAny then Table(rows) else NoReadableFilesystems;
  }

  /** `-h` or `--help` as the first argument. */
  predicate IsHelpFlag(argv: seq<string>)
  {
    |argv| > 1 && argv[1] in ["-h", "--help"]
  }

  /** The first argument, if any, as the volume filter. */
  function FilterArgument(argv: seq<string>): (f: Option<string>)
    ensures f.Some? <==> |argv| > 1
    ensures f.Some? ==> f.value == argv[1]
  {
    if |argv| > 1 then Some(argv[1]) else None
  }

  /** The program's entry point: help for a help flag, otherwise a report
      filtered by the first argument when there is one. `argv[0]` is the
      program name. */
  method RunProgram(argv: seq<string>, partitions: seq<Partition>, os: Os) returns (screen: Screen)
    ensures IsHelpFlag(argv) <==> screen == HelpText
    ensures !IsHelpFlag(argv) ==>
              screen.checking == (if |argv| > 1 && argv[1] != "" then Some(argv[1]) else None)
              && screen.outcome == DiskUsageOutcome(partitions, FilterArgument(argv), os)
  {
    if |argv| > 1 && argv[1] in ["-h", "--help"] {
      return HelpText;
    }
    var specificMount := if |argv| > 1 then Some(argv[1]) else None;
    var checking := if Given(specificMount) then Some(specificMount.value) else None;
    var _, _, outcome := PrintDiskUsage(partitions, specificMount, os);
    screen := Scan(checking, outcome);
  }

  // ---------------------------------------------------------------------------
  // Scenarios

  /** A listing of an ext4 root and a vfat `/boot`, without a filter, gives one
      row: the root's. */
  lemma RootAndVfatBoot(os: Os, u: Usage)
    requires os.diskUsage("/") == Some(u)
    ensures var root := Partition("/dev/sda1", "/", "ext4");
            DiskUsageOutcome([root, Partition("/dev/sda2", "/boot", "vfat")], None, os)
              == Table([MakeRow(root, u)])
  {
    var root, boot := Partition("/dev/sda1", "/", "ext4"), Partition("/dev/sda2", "/boot", "vfat");
    var parts := [root, boot];
    NoPrefixMatchesAt("/", SystemPrefixes, 1);
    assert Kept(root, None, os);
    assert IsNoise(boot.fstype) by { assert NoiseTypes[5] == boot.fstype; }
    assert parts[..1] == [root] && [root][..0] == [];
    assert ReportRows([root], None, os) == [RowOf(root, None, os)];
    assert ReportRows(parts, None, os) == ReportRows([root], None, os);
  }

  /** A vfat partition is dropped even when the filter names its device: it
      passes the filter check and is then dropped by the noise check. */
  lemma NamedVfatDeviceDropped(os: Os)
    requires os.normPath("/dev/sda2") == "/dev/sda2"
    ensures MatchesFilter(Partition("/dev/sda2", "/boot/efi", "vfat"), NormalizedFilter(Some("/dev/sda2"), os), os)
    ensures IsNoise("vfat")
    ensures DiskUsageOutcome([Partition("/dev/sda2", "/boot/efi", "vfat")], Some("/dev/sda2"), os)
              == NoReadableFilesystems
  {
  }

  /** `/home` with 95 GiB used of 100 GiB: red, with 19 of the 20 cells full. */
  lemma HomeNinetyFivePercent(p: Partition)
    ensures var r := MakeRow(p, Usage(100 * GiBBytes, 95 * GiBBytes, 5 * GiBBytes));
            r.size == 100 && r.used == 95 && r.avail == 5 && r.percent == 95.0 && r.tier == Red
            && |r.bar| == BarLength
            && (forall i :: 0 <= i < BarLength ==> (r.bar[i] == FullGlyph <==> i < 19))
  {
    var u := Usage(100 * GiBBytes, 95 * GiBBytes, 5 * GiBBytes);
    FilledOfUsage(u);
    TierOfUsage(u);
    assert Percent(u) * (u.total as real) == 100.0 * (u.used as real);
  }

  /** A usage query that fails for the only candidate yields the no-filesystems message. */
  lemma OnlyCandidateUnreadable(p: Partition, specificMount: Option<string>, os: Os)
    requires os.diskUsage(p.mountpoint).None?
    ensures DiskUsageOutcome([p], specificMount, os) == NoReadableFilesystems
  {
  }
}
