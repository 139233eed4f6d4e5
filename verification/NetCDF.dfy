/** Constants of the library's public header (src/include/pnetcdf.h.in) used by the model,
    and the check that a name is legal. */
module NetCDF {

  datatype Option<+T> = None | Some(value: T)

  const NC_NOERR := 0
  const NC_EBADID := -33
  const NC_ENFILE := -34
  const NC_EINVAL := -36
  const NC_EPERM := -37
  const NC_ENOTINDEFINE := -38
  const NC_EINDEFINE := -39
  const NC_EMAXDIMS := -41
  const NC_ENAMEINUSE := -42
  const NC_ENOTATT := -43
  const NC_EBADTYPE := -45
  const NC_EBADDIM := -46
  const NC_EUNLIMPOS := -47
  const NC_EMAXVARS := -48
  const NC_ENOTVAR := -49
  const NC_EGLOBAL := -50
  const NC_EMAXNAME := -53
  const NC_EUNLIMIT := -54
  const NC_EBADNAME := -59
  const NC_EVARSIZE := -62
  const NC_EDIMSIZE := -63
  const NC_ESTRICTNC3 := -112
  const NC_ELATEFILL := -122
  const NC_ENOTBUILT := -128
  const NC_EINDEP := -203
  const NC_EINVAL_CMODE := -228
  const NC_ESTRICTCDF2 := -232
  const NC_ENOTRECVAR := -233
  const NC_EMULTIDEFINE_DIM_SIZE := -253
  const NC_EMULTIDEFINE_DIM_NAME := -254
  const NC_EMULTIDEFINE_VAR_NAME := -256
  const NC_EMULTIDEFINE_VAR_NDIMS := -257
  const NC_EMULTIDEFINE_VAR_DIMIDS := -258
  const NC_EMULTIDEFINE_VAR_TYPE := -259
  const NC_EMULTIDEFINE_ATTR_NAME := -265
  const NC_EMULTIDEFINE_FNC_ARGS := -269
  const NC_EMULTIDEFINE_VAR_FILL_VALUE := -272
  const NC_EMULTIDEFINE_CMODE := -273

  const NC_GLOBAL := -1
  const NC_UNLIMITED := 0
  const NC_MAX_INT := 2147483647
  const NC_MAX_UINT := 4294967295
  const X_INT64_MAX := 9223372036854775807
  const NC_MAX_NAME := 256
  const NC_MAX_NFILES := 1024
  const NC_MAX_DIMS := NC_MAX_INT
  const NC_MAX_VARS := NC_MAX_INT

  const NC_DOUBLE := 6
  const NC_UINT64 := 11

  const NC_FORMAT_CLASSIC := 1
  const NC_FORMAT_CDF2 := 2
  const NC_FORMAT_NETCDF4 := 3
  const NC_FORMAT_NETCDF4_CLASSIC := 4
  const NC_FORMAT_CDF5 := 5

  /** Size in bytes of one element of an external type. */
  function TypeSize(xtype: int): (n: int)
    ensures 1 <= n <= 8
  {
    if xtype == 3 || xtype == 8 then 2
    else if xtype == 4 || xtype == 5 || xtype == 9 then 4
    else if xtype == 6 || xtype == 10 || xtype == 11 then 8
    else 1
  }

  /** The first n entries of a list, zero-filled. */
  function Padded(list: seq<int>, n: int): seq<int> {
    seq(if n < 0 then 0 else n, i requires 0 <= i => if i < |list| then list[i] else 0)
  }

  predicate FirstCharOk(c: char) {
    'A' <= c <= 'Z' || 'a' <= c <= 'z' || '0' <= c <= '9' || c == '_' || c > 127 as char
  }

  predicate LaterCharOk(c: char) {
    c != '/' && (' ' <= c <= '~' || c > 127 as char)
  }

  /** Whether a non-empty name is legal. A character above 0x7f stands for one well-formed
      multi-byte sequence, which the library accepts anywhere in a name. */
  predicate LegalName(name: string)
    requires name != ""
  {
    && FirstCharOk(name[0])
    && (forall i :: 1 <= i < |name| ==> LaterCharOk(name[i]))
    && name[|name| - 1] != ' '
  }
}
