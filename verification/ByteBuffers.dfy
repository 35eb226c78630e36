/**
Little-endian integers in byte buffers, and the cursor functions of client and enclave.

An `int` takes four bytes in two's complement, a `size_t` eight.
*/
module ByteBuffers {
  import opened IntVectors

  type Bytes = seq<Byte>

  const INT_SIZE := 4
  const SIZE_T_SIZE := 8
  const HASH_SIZE := 32

  function Power256(n: nat): (p: nat)
    ensures p > 0
  {
    if n == 0 then 1 else 256 * Power256(n - 1)
  }

  /** The n lowest bytes of x, lowest first. */
  function LittleEndian(x: nat, n: nat): (s: Bytes)
    ensures |s| == n
    decreases n
  {
    if n == 0 then [] else [(x % 256) as Byte] + LittleEndian(x / 256, n - 1)
  }

  function Value(s: Bytes): nat
    decreases |s|
  {
    if |s| == 0 then 0 else s[0] as nat + 256 * Value(s[1..])
  }

  lemma {:induction false} ValueOfLittleEndian(x: nat, n: nat)
    requires x < Power256(n)
    ensures Value(LittleEndian(x, n)) == x
    decreases n
  {
    if n == 0 {
    } else {
      ValueOfLittleEndian(x / 256, n - 1);
      assert LittleEndian(x, n)[1..] == LittleEndian(x / 256, n - 1);
    }
  }

  lemma {:induction false} LittleEndianOfValue(s: Bytes)
    ensures Value(s) < Power256(|s|) && LittleEndian(Value(s), |s|) == s
    decreases |s|
  {
    if |s| == 0 {
    } else {
      LittleEndianOfValue(s[1..]);
      Digits(s[0] as nat, Value(s[1..]));
      assert s == [s[0]] + s[1..];
    }
  }

  lemma Digits(low: nat, high: nat)
    requires low < 256
    ensures (low + 256 * high) % 256 == low && (low + 256 * high) / 256 == high
  {
  }

  lemma Powers()
    ensures Power256(INT_SIZE) == 0x1_0000_0000
    ensures Power256(SIZE_T_SIZE) == 0x1_0000_0000_0000_0000
  {
    assert Power256(2) == 0x1_0000;
    assert Power256(4) == 0x1_0000_0000;
    assert Power256(6) == 0x1_0000_0000_0000;
    assert Power256(8) == 0x1_0000_0000_0000_0000;
  }

  predicate IsInt(x: int) {
    -0x8000_0000 <= x < 0x8000_0000
  }

  predicate IsSize(x: int) {
    0 <= x < 0x1_0000_0000_0000_0000
  }

  /** The four bytes of an int; larger numbers are cut to 32 bits. */
  function EncodeInt(x: int): (s: Bytes)
    ensures |s| == INT_SIZE
  {
    LittleEndian(x % 0x1_0000_0000, INT_SIZE)
  }

  function DecodeInt(s: Bytes): (x: int)
    requires |s| == INT_SIZE
    ensures IsInt(x)
  {
    LittleEndianOfValue(s);
    Powers();
    var v := Value(s);
    if v < 0x8000_0000 then v else v - 0x1_0000_0000
  }

  function EncodeSize(x: nat): (s: Bytes)
    ensures |s| == SIZE_T_SIZE
  {
    LittleEndian(x, SIZE_T_SIZE)
  }

  function DecodeSize(s: Bytes): nat
    requires |s| == SIZE_T_SIZE
  {
    Value(s)
  }

  lemma IntRoundTrip(x: int)
    requires IsInt(x)
    ensures DecodeInt(EncodeInt(x)) == x
  {
    Powers();
    ValueOfLittleEndian(x % 0x1_0000_0000, INT_SIZE);
    assert x % 0x1_0000_0000 == if x < 0 then x + 0x1_0000_0000 else x;
  }

  lemma SizeRoundTrip(x: nat)
    requires IsSize(x)
    ensures DecodeSize(EncodeSize(x)) == x
  {
    Powers();
    ValueOfLittleEndian(x, SIZE_T_SIZE);
  }

  // --------------------------------------------------------------------- cursors

  /** addToArr: copies `val` to the cursor and moves the cursor behind it. */
  method AddToArr(val: Bytes, arr: array<Byte>, pos: nat) returns (next: nat)
    requires pos + |val| <= arr.Length
    modifies arr
    ensures next == pos + |val|
    ensures arr[..next] == old(arr[..pos]) + val && arr[next..] == old(arr[next..])
  {
    forall i | 0 <= i < |val| {
      arr[pos + i] := val[i];
    }
    next := pos + |val|;
  }

  /** addIntToArr */
  method AddIntToArr(val: int, arr: array<Byte>, pos: nat) returns (next: nat)
    requires pos + INT_SIZE <= arr.Length
    modifies arr
    ensures next == pos + INT_SIZE
    ensures arr[..next] == old(arr[..pos]) + EncodeInt(val) && arr[next..] == old(arr[next..])
  {
    next := AddToArr(EncodeInt(val), arr, pos);
  }

  /** iee_readFromArr: copies `size` bytes from the cursor and moves it behind them. */
  method ReadFromArr(size: nat, arr: Bytes, pos: nat) returns (val: Bytes, next: nat)
    requires pos + size <= |arr|
    ensures next == pos + size && val == arr[pos..next]
  {
    next := pos + size;
    val := arr[pos..next];
  }

  /** iee_readIntFromArr */
  method ReadIntFromArr(arr: Bytes, pos: nat) returns (x: int, next: nat)
    requires pos + INT_SIZE <= |arr|
    ensures next == pos + INT_SIZE && x == DecodeInt(arr[pos..next])
  {
    var val: Bytes;
    val, next := ReadFromArr(INT_SIZE, arr, pos);
    x := DecodeInt(val);
  }
}
