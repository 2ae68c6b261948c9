/** Vocabulary shared by the models: addresses, optional values and the two-argument maximum. */
module Common {
  type Addr = nat

  datatype Option<+T> = None | Some(value: T)

  function Max(a: nat, b: nat): nat { if a < b then b else a }

  function MaxReal(a: real, b: real): real { if a < b then b else a }

  // rt_flags of a route entry: RTF_DOWN, RTF_UP and RTF_IN_REPAIR.
  datatype Flag = Down | Up | InRepair
}
