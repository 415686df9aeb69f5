# pdsk-util report model

pdsk-util prints a `df -h`-style table of the mounted filesystems: device,
type, size, used, available, a usage percentage with a 20-cell gauge coloured
by severity, and the mount point. An optional command-line argument filters
the table to one mount point or device; `-h`/`--help` shows help instead.

This project models the part of `pdsk_util.py` that decides what the table
holds:

- `DiskTypes` (`disk_types.dfy`): partitions, usage samples, rows, colour
  tiers, and `Os`, the host services the report calls. These are
  `os.path.normpath`, `str.lower` and `psutil.disk_usage`, passed in as
  function values. A failed usage query (`PermissionError` or `OSError`) is
  `None`.
- `RowFormat` (`row_format.dfy`): the arithmetic of one row. Sizes are in whole
  GiB, rounded down. The percentage is an exact real. `Filled` is the number
  of full gauge cells, Python's `int()` of `percent / 100 * 20`
  (pdsk_util.py:78). The gauge is full glyphs followed by empty glyphs.
  `TierOf` is the tier: red from 90 %, yellow from 70 % and green below that
  (pdsk_util.py:81). Two integer reference definitions sit beside them.
  `FullCells` is `(20 * used) / total`, or 0 on an empty volume. `ShareTier`
  is red iff `total > 0` and `10 * used >= 9 * total`, yellow iff `total > 0`
  and `7 * total <= 10 * used < 9 * total`, and green otherwise (every empty
  volume is green). Lemmas prove that `Filled` and `TierOf` agree with
  these definitions.
- `VolumeFilter` (`volume_filter.dfy`): the four checks of the scan loop are
  predicates:
  - `MatchesFilter` is the filter (pdsk_util.py:54-56);
  - `IsNoise` is the noise filesystem types (pdsk_util.py:59);
  - `IsSystemMount` is the system mount-point prefixes (pdsk_util.py:61);
  - the usage query is the last conjunct of `Kept`, which is all four checks
    together (pdsk_util.py:54-70).

  `ReportRows` gives the rows of a listing, and the lemmas say what those rows
  are.
- `Report` (`report.dfy`): the scan loop `PrintDiskUsage` as a method with a
  `for` loop and `continue`s, proved equal to `ReportRows`. It also returns the
  `found_any` flag and the printed outcome (table or "no readable
  filesystems"). `RunProgram` is the argument dispatch of `main`, and `IsHelpFlag` is its help test (pdsk_util.py:102). A few
  scenario lemmas are included.

The partition listing (`psutil.disk_partitions`) is a sequence given to the
report.

The model follows the code as written. Three consequences are worth noting:

- The noise-type and system-prefix checks run after the filter. A `vfat`
  partition is therefore dropped even when the filter names its device
  (`Report.NamedVfatDeviceDropped`). There is no exception for an exact device
  filter.
- The raw device is compared with the *normalised* filter, not the filter as
  typed.
- The prefix test is a plain string prefix applied to the raw mount point. It
  also drops `/system` or `/snapshots`, and it keeps `/./proc`
  (`VolumeFilter.SystemPrefixIsTextual`).

## Model

| member | source | states |
|---|---|---|
| `RowFormat.GiB` | pdsk_util.py:72-74 | the size in GiB is the largest whole number of 2^30-byte units not above the byte count (floor division) |
| `RowFormat.Percent` | pdsk_util.py:75 | percent is non-negative, 0 when total is 0, satisfies `percent * total == 100 * used` otherwise, and is at most 100 when used does not exceed total |
| `RowFormat.Trunc` | pdsk_util.py:78 | `int()` truncates toward zero: for non-negative x the result is the floor, for negative x the ceiling |
| `RowFormat.Repeat` | pdsk_util.py:79 | string repetition gives `n` copies of the glyph, and nothing for `n <= 0` |
| `RowFormat.Bar` | pdsk_util.py:77-79 | the gauge is exactly 20 cells when 0 <= filled <= 20, exactly `filled` cells when filled > 20; cell i is the full glyph `█` when i < filled and the empty glyph `░` otherwise |
| `RowFormat.FilledOfUsage` | pdsk_util.py:75-78 | the number of full cells equals `FullCells`: `(20 * used) / total` in integer division, and 0 when total is 0 |
| `RowFormat.FilledBounds` | pdsk_util.py:75-79 | filled is never negative; when used <= total it is at most 20, and it is 20 iff the volume is non-empty and completely used |
| `RowFormat.FilledOverflow` | pdsk_util.py:77-79 | filled exceeds 20 (the gauge overflows) iff total > 0 and `20 * used >= 21 * total` |
| `RowFormat.TierOfUsage` | pdsk_util.py:81 | the real-valued tier test on the percent equals `ShareTier`: red iff total > 0 and used >= 90 % of total; yellow iff 70 % <= used < 90 %; green iff total is 0 or used < 70 % |
| `RowFormat.Gauge` | pdsk_util.py:75-79 | the gauge of a volume has the full glyph in cell i iff i < `(20 * used) / total` (no full cells on an empty volume), the empty glyph in every other cell; it has 20 cells unless `(20 * used) / total` exceeds 20 (an over-full volume), and then that many cells |
| `RowFormat.UsageTier` | pdsk_util.py:75-81 | the tier of a volume equals `ShareTier`: red iff total > 0 and `10 * used >= 9 * total`, yellow iff total > 0 and `7 * total <= 10 * used < 9 * total`, green iff total is 0 or `10 * used < 7 * total` |
| `RowFormat.MakeRow` | pdsk_util.py:72-91 | a row keeps the partition's device, type and raw mount point; each size is the floor-GiB of its own byte count; the percent is 0 on an empty volume and `used / total * 100` otherwise (in [0, 100] when used <= total, with a 20-cell gauge); cell i of the gauge is the full glyph when i < `(20 * used) / total` and the empty glyph otherwise, and the gauge has `max(20, (20 * used) / total)` cells; the tier is red iff total > 0 and used >= 90 % of total, yellow iff total > 0 and 70 % <= used < 90 %, green otherwise (an empty volume is green) |
| `RowFormat.DeviceCell` | pdsk_util.py:84 | the Filesystem cell is never empty: the device when it is non-empty, and the dash `—` when it is empty |
| `VolumeFilter.NormalizedFilter` | pdsk_util.py:46-48 | a given (non-empty) filter is replaced by its normalisation; an absent or empty one stays inactive |
| `VolumeFilter.ReportRows` | pdsk_util.py:50-91 | at most one row per partition of the listing |
| `VolumeFilter.KeptIndicesAreKeptPositions` | pdsk_util.py:50-70 | the kept positions are strictly increasing positions of partitions that pass all four checks, and every such partition's position is among them |
| `VolumeFilter.RowsFollowKeptPartitions` | pdsk_util.py:50-91 | row k is the row of the partition at the k-th kept position, and there are exactly as many rows as kept positions: an order-preserving subsequence of the listing in which each surviving volume appears once |
| `VolumeFilter.NoNoiseRows` | pdsk_util.py:54-62 | whatever the filter, including one naming the device, no row has a noise filesystem type or a mount point starting with a system prefix |
| `VolumeFilter.FilterRows` | pdsk_util.py:47-56 | with a non-empty filter, every row's normalised mount point equals the normalised filter ignoring case, or its raw device equals the normalised filter |
| `VolumeFilter.NoFilterKeepsAll` | pdsk_util.py:47-56 | with an absent or empty filter, every partition that passes the noise, prefix and usage checks has its row in the output |
| `VolumeFilter.RowsNonEmptyIffKept` | pdsk_util.py:45-70 | some row is produced iff some partition passes all four checks |
| `VolumeFilter.SystemPrefixIsTextual` | pdsk_util.py:61-62 | the prefix check works on raw strings: `/system`, `/snapshots` and `/dev` are dropped; `/./proc`, `/` and `/home` are not |
| `VolumeFilter.NoPrefixMatchesAt` | pdsk_util.py:61 | a string starts with none of the prefixes when each prefix differs from it at some common position |
| `Report.DiskUsageOutcome` | pdsk_util.py:93-97 | a printed table is never empty and holds exactly the rows of `ReportRows` under the normalised filter, and the "no readable filesystems" message appears iff no partition passes all four checks |
| `Report.PrintDiskUsage` | pdsk_util.py:30-97 | the loop's rows are exactly `ReportRows` of the listing under the normalised filter; `found_any` is true iff a row was added; the table is printed iff `found_any`, otherwise the message |
| `Report.FilterArgument` | pdsk_util.py:106 | the filter is `argv[1]` when there is one and absent otherwise |
| `Report.RunProgram` | pdsk_util.py:99-110 | help is shown iff `argv[1]` is `-h` or `--help`, with no report; otherwise the report runs with `argv[1]` (if any) as filter, and a "Checking volume" line is shown iff that filter is non-empty |
| `Report.RootAndVfatBoot` | pdsk_util.py:58-60 | an ext4 `/` and a vfat `/boot`, unfiltered, give exactly one row, the root's |
| `Report.NamedVfatDeviceDropped` | pdsk_util.py:53-60 | a vfat partition filtered for by its own device passes the filter check, is a noise type, and so still yields the no-filesystems message |
| `Report.HomeNinetyFivePercent` | pdsk_util.py:72-81 | 95 GiB used of 100 GiB: sizes 100/95/5, percent 95, tier red, 19 of 20 cells full |
| `Report.OnlyCandidateUnreadable` | pdsk_util.py:64-70 | when the usage query fails for the only partition, the no-filesystems message is printed |

## Left out

- `psutil.disk_partitions` is not modelled; the listing is an input sequence.
- `psutil.disk_usage` is a function of the mount point. Two partitions with the same mount point therefore get the same answer, and a repeated run gets the same rows. Exceptions other than `PermissionError`/`OSError` (which would end the program) are not modelled.
- `os.path.normpath` and `str.lower` are uninterpreted functions (`Os.normPath`, `Os.lower`). POSIX/Windows path rules and Unicode case mapping are not modelled.
- `VolumeFilter.FilterRows`: it assumes the normalised filter is non-empty. The real `normpath` never returns an empty string. If it did, line 54 would switch the filter off, and `VolumeFilter.NoFilterKeepsAll` covers that case.
- Floating point: percent, `percent / 100 * 20` and the tier thresholds use exact reals. Python floats can round differently next to the 70 %, 90 % and whole-cell boundaries, and for byte counts above 2^53.
- Integer width: byte counts are unbounded naturals, not 64-bit values.
- Rendering: the `rich` console, table, box styles, colour markup strings, the `{n}G` and `:5.1f` formatting, and the timestamped title. A row keeps the numbers, the exact percent, the gauge string and the tier (a `Tier` value, not a markup string).
- The help text and the wording of the "no readable filesystems" and "sudo" messages are constants. They are represented by `HelpText` and `NoReadableFilesystems`.
- With the help flag, the model shows that no report runs, because `HelpText` carries no outcome. It does not model the OS queries themselves being skipped.
- Exit status: it is 0 on every normal path, and nothing is modelled.
- `setup.py` holds only packaging metadata and is not part of this model.
