/** Gas: the block gas pool (core/gaspool.go) and intrinsic gas (core/state_transition.go). */
module Gas {
  import opened Basics
  import opened Uint64

  const TX_GAS: nat := 21000
  const TX_GAS_CONTRACT_CREATION: nat := 53000
  const TX_DATA_ZERO_GAS: nat := 4
  const TX_DATA_NON_ZERO_GAS_FRONTIER: nat := 68
  const TX_DATA_NON_ZERO_GAS_EIP2028: nat := 16
  const INIT_CODE_WORD_GAS: nat := 2
  const TX_ACCESS_LIST_ADDRESS_GAS: nat := 2400
  const TX_ACCESS_LIST_STORAGE_KEY_GAS: nat := 1900

  // ------------------------------------------------------------------- gas pool

  const GAS_LIMIT_REACHED := "gas limit reached"
  const GAS_UINT_OVERFLOW := "gas uint64 overflow"

  /** The gas still available in a block. */
  class GasPool {
    var gas: nat

    ghost predicate Valid()
      reads this
    {
      gas <= MAX_UINT64
    }

    constructor ()
      ensures Valid() && gas == 0
    {
      gas := 0;
    }

    /** Panics above 64 bits, so every caller has to show that it stays below. */
    method AddGas(amount: nat)
      requires gas + amount <= MAX_UINT64
      modifies this
      ensures Valid() && gas == old(gas) + amount
    {
      gas := gas + amount;
    }

    method SubGas(amount: nat) returns (r: Result<()>)
      requires Valid()
      modifies this
      ensures Valid()
      ensures r.Ok? <==> amount <= old(gas)
      ensures r.Err? ==> r.error == GAS_LIMIT_REACHED
      ensures gas == if r.Ok? then old(gas) - amount else old(gas)
    {
      if gas < amount { return Err(GAS_LIMIT_REACHED); }
      gas := gas - amount;
      r := Ok(());
    }

    method SetGas(amount: nat)
      requires amount <= MAX_UINT64
      modifies this
      ensures Valid() && gas == amount
    {
      gas := amount;
    }
  }

  // -------------------------------------------------------------- intrinsic gas

  /** An access list, by the number of storage keys of each address in it. */
  type AccessList = seq<nat>

  function Sum(s: seq<nat>): nat {
    if s == [] then 0 else s[0] + Sum(s[1..])
  }

  function NonZeroBytes(data: seq<nat>): nat {
    if data == [] then 0 else (if data[0] != 0 then 1 else 0) + NonZeroBytes(data[1..])
  }

  lemma {:induction false} NonZeroBound(data: seq<nat>)
    ensures NonZeroBytes(data) <= |data|
  {
    if data != [] { NonZeroBound(data[1..]); }
  }

  lemma {:induction false} NonZeroMore(data: seq<nat>, i: nat)
    requires i < |data|
    ensures NonZeroBytes(data[..i + 1]) == NonZeroBytes(data[..i]) + if data[i] != 0 then 1 else 0
  {
    if i > 0 {
      NonZeroMore(data[1..], i - 1);
      assert data[..i + 1][1..] == data[1..][..i] && data[..i][1..] == data[1..][..i - 1];
    }
  }

  /** Data size in 32-byte words, rounded up, for every 64-bit size. */
  function ToWordSize(size: nat): (r: nat)
    requires size <= MAX_UINT64
    ensures 32 * r >= size && (r > 0 ==> 32 * (r - 1) < size)
  {
    if size > MAX_UINT64 - 31 then MAX_UINT64 / 32 + 1 else (size + 31) / 32
  }

  /** The price of the call data, in unbounded arithmetic. */
  ghost function DataCost(data: seq<nat>, isCreation: bool, isHomestead: bool, isEIP2028: bool, isEIP3860: bool): nat
    requires |data| <= MAX_UINT64
  {
    NonZeroBound(data);
    var nz := NonZeroBytes(data);
    (if isCreation && isHomestead then TX_GAS_CONTRACT_CREATION else TX_GAS)
    + nz * (if isEIP2028 then TX_DATA_NON_ZERO_GAS_EIP2028 else TX_DATA_NON_ZERO_GAS_FRONTIER)
    + (|data| - nz) * TX_DATA_ZERO_GAS
    + (if isCreation && isEIP3860 then ToWordSize(|data|) * INIT_CODE_WORD_GAS else 0)
  }

  ghost function AccessListCost(accessList: Option<AccessList>): nat {
    if accessList.None? then 0
    else |accessList.value| * TX_ACCESS_LIST_ADDRESS_GAS + Sum(accessList.value) * TX_ACCESS_LIST_STORAGE_KEY_GAS
  }

  /** In figures: a call costs 21000 and a creation 53000 from Homestead on. */
  lemma EmptyDataCost(isCreation: bool, isHomestead: bool, isEIP2028: bool, isEIP3860: bool)
    ensures DataCost([], isCreation, isHomestead, isEIP2028, isEIP3860)
         == if isCreation && isHomestead then 53000 else 21000
  {
  }

  lemma WordsNext(size: nat)
    requires size < MAX_UINT64
    ensures ToWordSize(size + 1) == ToWordSize(size) + if size % 32 == 0 then 1 else 0
  {
  }

  /** Every further byte costs 4 if it is zero, else 16 from Istanbul on and 68 before, and for a creation from Shanghai
      on 2 more with every 32nd one begun. */
  lemma NextByteCost(data: seq<nat>, b: nat, isCreation: bool, isHomestead: bool, isEIP2028: bool, isEIP3860: bool)
    requires |data| < MAX_UINT64
    ensures DataCost(data + [b], isCreation, isHomestead, isEIP2028, isEIP3860)
         == DataCost(data, isCreation, isHomestead, isEIP2028, isEIP3860)
            + (if b == 0 then 4 else if isEIP2028 then 16 else 68)
            + (if isCreation && isEIP3860 && |data| % 32 == 0 then 2 else 0)
  {
    NonZeroMore(data + [b], |data|);
    assert (data + [b])[..|data| + 1] == data + [b] && (data + [b])[..|data|] == data;
    NonZeroBound(data);
    var nz := NonZeroBytes(data);
    var price := if isEIP2028 then TX_DATA_NON_ZERO_GAS_EIP2028 else TX_DATA_NON_ZERO_GAS_FRONTIER;
    assert (nz + 1) * price == nz * price + price;
    WordsNext(|data|);
  }

  lemma {:induction false} SumMore(s: seq<nat>, x: nat)
    ensures Sum(s + [x]) == Sum(s) + x
  {
    if s == [] {
      assert s + [x] == [x];
    } else {
      SumMore(s[1..], x);
      assert (s + [x])[1..] == s[1..] + [x];
    }
  }

  /** An access list costs 2400 for every address and 1900 for every storage key. */
  lemma {:induction false} NextAccessCost(list: AccessList, keys: nat)
    ensures AccessListCost(None) == AccessListCost(Some([])) == 0
    ensures AccessListCost(Some(list + [keys])) == AccessListCost(Some(list)) + 2400 + 1900 * keys
  {
    SumMore(list, keys);
  }

  lemma TimesAtLeast(a: nat, b: nat, c: nat)
    requires a <= b
    ensures a * c <= b * c
  {
  }

  lemma TooMany(room: nat, price: nat, n: nat)
    requires price > 0 && room / price < n
    ensures n * price > room
  {
    TimesAtLeast(room / price + 1, n, price);
    assert room < (room / price + 1) * price;
  }

  lemma NotTooMany(room: nat, price: nat, n: nat)
    requires price > 0 && n <= room / price
    ensures n * price <= room
  {
    TimesAtLeast(n, room / price, price);
    assert room / price * price <= room;
  }

  /** The overflow test that avoids the overflow it tests for. */
  lemma OverflowTest(room: nat, price: nat, n: nat)
    requires price > 0
    ensures room / price < n <==> n * price > room
  {
    if room / price < n { TooMany(room, price, n); } else { NotTooMany(room, price, n); }
  }

  method CountNonZero(data: seq<nat>) returns (nz: nat)
    ensures nz == NonZeroBytes(data)
  {
    nz := 0;
    for i := 0 to |data|
      invariant nz == NonZeroBytes(data[..i])
    {
      NonZeroMore(data, i);
      if data[i] != 0 { nz := nz + 1; }
    }
    assert data[..|data|] == data;
  }

  /** Adds `n` items at `price` each, failing instead of overflowing. */
  method AddCost(gas: nat, price: nat, n: nat) returns (r: Result<nat>)
    requires gas <= MAX_UINT64 && price > 0
    ensures r.Ok? <==> gas + n * price <= MAX_UINT64
    ensures r.Ok? ==> r.value == gas + n * price
    ensures r.Err? ==> r.error == GAS_UINT_OVERFLOW
  {
    OverflowTest(MAX_UINT64 - gas, price, n);
    if (MAX_UINT64 - gas) / price < n { return Err(GAS_UINT_OVERFLOW); }
    r := Ok(gas + n * price);
  }

  /** The price of the call data; fails exactly when it exceeds 64 bits. */
  method DataGas(data: seq<nat>, isCreation: bool, isHomestead: bool, isEIP2028: bool, isEIP3860: bool)
    returns (r: Result<nat>)
    requires |data| <= MAX_UINT64
    ensures r.Ok? <==> DataCost(data, isCreation, isHomestead, isEIP2028, isEIP3860) <= MAX_UINT64
    ensures r.Ok? ==> r.value == DataCost(data, isCreation, isHomestead, isEIP2028, isEIP3860)
    ensures r.Err? ==> r.error == GAS_UINT_OVERFLOW
  {
    r := Ok(if isCreation && isHomestead then TX_GAS_CONTRACT_CREATION else TX_GAS);
    NonZeroBound(data);
    if |data| > 0 {
      var nz := CountNonZero(data);
      r := AddCost(r.value, if isEIP2028 then TX_DATA_NON_ZERO_GAS_EIP2028 else TX_DATA_NON_ZERO_GAS_FRONTIER, nz);
      if r.Err? { return; }
      r := AddCost(r.value, TX_DATA_ZERO_GAS, |data| - nz);
      if r.Err? { return; }
      if isCreation && isEIP3860 { r := AddCost(r.value, INIT_CODE_WORD_GAS, ToWordSize(|data|)); }
    }
  }

  /** The gas a transaction costs before it runs.  The data part fails exactly when it exceeds 64 bits; the access
      list part is not checked, so the result is the true cost up to 64-bit wrap-around. */
  method IntrinsicGas(data: seq<nat>, accessList: Option<AccessList>, isCreation: bool, isHomestead: bool,
                      isEIP2028: bool, isEIP3860: bool)
    returns (r: Result<nat>)
    requires |data| <= MAX_UINT64
    ensures var cost := DataCost(data, isCreation, isHomestead, isEIP2028, isEIP3860);
            && (r.Ok? <==> cost <= MAX_UINT64)
            && (r.Ok? ==> r.value == Wrap(cost + AccessListCost(accessList)))
            && (r.Err? ==> r.error == GAS_UINT_OVERFLOW)
  {
    r := DataGas(data, isCreation, isHomestead, isEIP2028, isEIP3860);
    if r.Ok? && accessList.Some? {
      var addresses := |accessList.value| * TX_ACCESS_LIST_ADDRESS_GAS;
      var keys := Sum(accessList.value) * TX_ACCESS_LIST_STORAGE_KEY_GAS;
      WrapAdd(r.value + addresses, keys);
      r := Ok(Wrap(Wrap(r.value + addresses) + keys));
    }
  }

  /** An access list with which a plain call costs less than without: one address with about 2^64 / 1900 storage
      keys. */
  lemma AccessListWraps()
    ensures var plain, list := DataCost([], false, true, true, true), AccessListCost(Some([9708812670373436]));
            plain + list > MAX_UINT64 && Wrap(plain + list) < plain
  {
    var cost := DataCost([], false, true, true, true) + AccessListCost(Some([9708812670373436]));
    assert Sum([9708812670373436]) == 9708812670373436;
    assert cost == 21000 + 2400 + 9708812670373436 * 1900;
    WrapPeriodic(cost - UINT64);
  }
}
