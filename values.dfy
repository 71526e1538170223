/**
 * The tagged value carried by named arguments and list nodes
 * (elemental/include/neutron/elemental/value.h).
 */
module Values {
  import opened Wrappers

  /** A machine address; 0 stands for NULL. */
  type Addr = nat

  const Null: Addr := 0

  /** A C string as the characters before its terminator. */
  type CString = seq<char>

  /**
   * NtValue: one of five tags with its payload.  A `char*` payload may be
   * NULL, hence the Option.  No conversion between tags exists.
   */
  datatype Value =
    | Pointer(pointer: Addr)
    | String(str: Option<CString>)
    | Number(number: int)
    | Boolean(boolean: bool)
    | Instance(instance: Addr)
}
