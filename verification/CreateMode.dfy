/** The mode with which a file is created: the root's counts on every process, and the file format
    is chosen from it or, without a format flag, from a default that each process has of its own. */
module CreateMode {
  import opened NetCDF
  import opened Network

  /** The format flags of a create mode; `other` stands for its remaining bits. */
  datatype CMode = CMode(data64: bool, offset64: bool, netcdf4: bool, classic: bool, other: nat)

  datatype Choice = Refused(code: int) | Chosen(format: int, mode: CMode)

  predicate Decisive(m: CMode) {
    m.data64 || m.offset64 || m.netcdf4 || m.classic
  }

  /** What ncmpi_set_default_format lets through. */
  predicate FormatOk(format: int) {
    || format == NC_FORMAT_CLASSIC || format == NC_FORMAT_CDF2 || format == NC_FORMAT_NETCDF4
    || format == NC_FORMAT_NETCDF4_CLASSIC || format == NC_FORMAT_CDF5
  }

  /** The choice of a process whose default is dflt; nc4: the library is built with NetCDF-4. */
  function Choose(nc4: bool, m: CMode, dflt: int): Choice {
    if nc4 && ((m.offset64 && m.netcdf4) || (m.data64 && m.netcdf4)) then Refused(NC_EINVAL_CMODE)
    else if !nc4 && m.netcdf4 then Refused(NC_ENOTBUILT)
    else if m.offset64 && m.data64 then Refused(NC_EINVAL_CMODE)
    else if m.data64 then Chosen(NC_FORMAT_CDF5, m)
    else if m.offset64 then Chosen(NC_FORMAT_CDF2, m)
    else if m.netcdf4 then Chosen(if m.classic then NC_FORMAT_NETCDF4_CLASSIC else NC_FORMAT_NETCDF4, m)
    else if m.classic then Chosen(NC_FORMAT_CLASSIC, m)
    else Chosen(dflt,
      if dflt == NC_FORMAT_CDF5 then m.(data64 := true)
      else if dflt == NC_FORMAT_CDF2 then m.(offset64 := true)
      else if dflt == NC_FORMAT_NETCDF4 then m.(netcdf4 := true)
      else if dflt == NC_FORMAT_NETCDF4_CLASSIC then m.(netcdf4 := true, classic := true)
      else m)
  }

  /** ncmpi_inq_version, for a file of this format. */
  function InqVersion(nc4: bool, format: int): Option<CMode> {
    var none := CMode(false, false, false, false, 0);
    if format == NC_FORMAT_CDF5 then Some(none.(data64 := true))
    else if format == NC_FORMAT_CDF2 then Some(none.(offset64 := true))
    else if format == NC_FORMAT_CLASSIC then Some(none.(classic := true))
    else if nc4 && format == NC_FORMAT_NETCDF4 then Some(none.(netcdf4 := true))
    else if nc4 && format == NC_FORMAT_NETCDF4_CLASSIC then Some(none.(netcdf4 := true, classic := true))
    else None
  }

  /** All processes choose alike if and only if the root's mode has a format flag or their defaults
      are the same; nothing compares the defaults. */
  lemma ChoiceIsCommonIff(nc4: bool, root: CMode, dflts: seq<int>)
    requires dflts != [] && forall i :: 0 <= i < |dflts| ==> FormatOk(dflts[i])
    ensures (forall i :: 0 <= i < |dflts| ==> Choose(nc4, root, dflts[i]) == Choose(nc4, root, dflts[0]))
       <==> Decisive(root) || forall i :: 0 <= i < |dflts| ==> dflts[i] == dflts[0]
  {
  }

  ghost predicate ChoosesAgain(nc4: bool, m: CMode, format: int) {
    forall d :: FormatOk(d) ==> Choose(nc4, m, d).Chosen? && Choose(nc4, m, d).format == format
  }

  /** Creating a file with the mode that ncmpi_inq_version reports of another chooses its format
      again, whatever the default, except for the NetCDF-4 formats in a library without them, of
      which no mode is reported. */
  lemma VersionRoundTripIff(nc4: bool, m: CMode, dflt: int)
    requires FormatOk(dflt) && Choose(nc4, m, dflt).Chosen?
    ensures var format := Choose(nc4, m, dflt).format;
      (InqVersion(nc4, format).Some? && ChoosesAgain(nc4, InqVersion(nc4, format).value, format))
      <==> (nc4 || (format != NC_FORMAT_NETCDF4 && format != NC_FORMAT_NETCDF4_CLASSIC))
  {
  }

  /** The mode kept with the file chooses its format again, under any default, unless the format
      is a NetCDF-4 one that the library is not built with, or the classic one taken by default:
      that leaves no flag behind. */
  lemma KeptModeIff(nc4: bool, m: CMode, dflt: int)
    requires FormatOk(dflt) && Choose(nc4, m, dflt).Chosen?
    ensures ChoosesAgain(nc4, Choose(nc4, m, dflt).mode, Choose(nc4, m, dflt).format) <==>
      Decisive(m) || (if dflt == NC_FORMAT_NETCDF4 || dflt == NC_FORMAT_NETCDF4_CLASSIC then nc4 else dflt != NC_FORMAT_CLASSIC)
  {
    assert FormatOk(NC_FORMAT_CDF2) && FormatOk(NC_FORMAT_CLASSIC);
    var c := Choose(nc4, m, dflt);
    assert ChoosesAgain(nc4, c.mode, c.format) ==>
      Choose(nc4, c.mode, NC_FORMAT_CDF2).Chosen? && Choose(nc4, c.mode, NC_FORMAT_CDF2).format == c.format;
  }

  /* ---------------- the broadcast of the mode ---------------- */

  /** A process complains if its mode is not the root's. */
  function Own(modes: seq<CMode>): (s: seq<int>)
    ensures |s| == |modes|
  {
    seq(|modes|, i requires 0 <= i < |modes| => if modes[i] != modes[0] then NC_EMULTIDEFINE_CMODE else NC_NOERR)
  }

  /** In safe mode the processes agree on the smallest status. */
  function Status(safe: bool, modes: seq<CMode>, i: nat): int
    requires i < |modes|
  {
    if safe then MinOf(Own(modes)) else Own(modes)[i]
  }

  /** In safe mode all have the same status, a complaint if and only if the modes differ; out of it
      a process complains exactly if its own mode is not the root's, so the root never does. */
  lemma WhoComplains(modes: seq<CMode>, i: nat)
    requires i < |modes|
    ensures Status(true, modes, i) == NC_NOERR <==> forall j :: 0 <= j < |modes| ==> modes[j] == modes[0]
    ensures Status(true, modes, i) == NC_NOERR || Status(true, modes, i) == NC_EMULTIDEFINE_CMODE
    ensures Status(false, modes, i) == NC_NOERR <==> modes[i] == modes[0]
  {
    var own := Own(modes);
    if j :| 0 <= j < |modes| && modes[j] != modes[0] { assert own[j] in own; }
    assert forall j :: 0 <= j < |modes| ==> own[j] == NC_NOERR || own[j] == NC_EMULTIDEFINE_CMODE;
  }
}
