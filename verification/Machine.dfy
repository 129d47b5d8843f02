/** Fixed-width C integers as subset types of `int`, and the errno values the
    modelled functions return.  Every C addition or cast that could leave its
    type is an ordinary `int` operation here, so leaving the range is a proof
    failure unless the code tests for it first. */
module Machine {

  const U32_MAX := 0xFFFF_FFFF
  const U64_MAX := 0xFFFF_FFFF_FFFF_FFFF
  const I64_MIN := -0x8000_0000_0000_0000
  const I64_MAX := 0x7FFF_FFFF_FFFF_FFFF

  type U8 = x: int | 0 <= x < 0x100
  type U16 = x: int | 0 <= x < 0x1_0000
  type U32 = x: int | 0 <= x <= U32_MAX
  type U64 = x: int | 0 <= x <= U64_MAX
  type I32 = x: int | -0x8000_0000 <= x < 0x8000_0000
  type I64 = x: int | I64_MIN <= x <= I64_MAX

  /** The limits of uint32_t, uint64_t and int64_t in decimal. */
  lemma Limits()
    ensures U32_MAX == 4_294_967_295 && U64_MAX == 18_446_744_073_709_551_615
    ensures I64_MIN == -9_223_372_036_854_775_808 && I64_MAX == 9_223_372_036_854_775_807
  {
  }

  datatype Errno =
    | OK | EINVAL | ENOENT | ENOSPC | ERANGE | EOVERFLOW | ENODATA | EBADMSG
    | ENOTSUP | ECANCELED | EBUSY | EINTR | EMSGSIZE | EPROTONOSUPPORT | EPIPE | ECONNRESET | EIO

  datatype Option<+T> = None | Some(value: T)
}
