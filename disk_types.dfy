/** The values that pdsk-util reads from the operating system and the rows it
    shows. The operating system itself is not modelled: its partition listing is
    a sequence given to the report, and the three library services the report
    calls (path normalisation, lower-casing, the disk-usage query) are function
    values held in `Os`. */
module DiskTypes {

  datatype Option<+T> = None | Some(value: T)

  /** One entry of the partition listing: device, mount point, filesystem type. */
  datatype Partition = Partition(device: string, mountpoint: string, fstype: string)

  /** Byte counts for one mount point. `used + free` need not equal `total`:
      filesystems keep reserved space. */
  datatype Usage = Usage(total: nat, used: nat, free: nat)

  /** The services the report takes from its host.
      - `normPath` stands for `os.path.normpath`,
      - `lower` stands for `str.lower`,
      - `diskUsage` stands for `psutil.disk_usage`; `None` when the query raises
        `PermissionError` or another `OSError`. */
  datatype Os = Os(
    normPath: string -> string,
    lower: string -> string,
    diskUsage: string -> Option<Usage>)

  /** Colour of the Use% cell: green, yellow or red. */
  datatype Tier = Green | Yellow | Red

  /** One table row before rendering: sizes in whole GiB, the exact usage
      percentage, the gauge and its colour tier. `device` is the raw device
      string; the cell shown for it is `RowFormat.DeviceCell`. */
  datatype Row = Row(
    device: string,
    fstype: string,
    size: nat,
    used: nat,
    avail: nat,
    percent: real,
    bar: string,
    tier: Tier,
    mountpoint: string)
}
