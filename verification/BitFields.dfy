/**
 Bit fields: an integer as a set of flags. Integers are unbounded and their bits are those of two's
 complement, so a negative number has all but finitely many bits set.
*/
module BitFields {
  import opened Arithmetic
  import opened Common

  // ---------------------------------------------------------------------------------------------
  // Bits of integers
  // ---------------------------------------------------------------------------------------------

  function Pow2(n: nat): (p: nat)
    ensures p > 0
  {
    if n == 0 then 1 else 2 * Pow2(n - 1)
  }

  /** Bit `k` of `v`. Division rounds down, so this is two's complement for negative numbers too. */
  predicate BitAt(v: int, k: nat)
    decreases k
  {
    if k == 0 then v % 2 == 1 else BitAt(v / 2, k - 1)
  }

  function Size(v: int): nat { if v < 0 then -v else v }

  function Not(a: int): int { -a - 1 }

  function And(a: int, b: int): int
    decreases Size(a)
  {
    if a == 0 then 0
    else if a == -1 then b
    else 2 * And(a / 2, b / 2) + if a % 2 == 1 && b % 2 == 1 then 1 else 0
  }

  function Or(a: int, b: int): int { Not(And(Not(a), Not(b))) }

  function Xor(a: int, b: int): int { And(Or(a, b), Not(And(a, b))) }

  lemma Halves(h: int, bit: int)
    requires 0 <= bit <= 1
    ensures (2 * h + bit) / 2 == h && (2 * h + bit) % 2 == bit
  {
  }

  lemma {:induction false} BitsOfExtremes(k: nat)
    ensures !BitAt(0, k) && BitAt(-1, k)
  {
    if k > 0 { BitsOfExtremes(k - 1); }
  }

  lemma {:induction false} NotBits(a: int, k: nat)
    ensures BitAt(Not(a), k) == !BitAt(a, k)
    decreases k
  {
    if k > 0 {
      assert Not(a) / 2 == Not(a / 2);
      NotBits(a / 2, k - 1);
    }
  }

  lemma {:induction false} AndBits(a: int, b: int, k: nat)
    ensures BitAt(And(a, b), k) == (BitAt(a, k) && BitAt(b, k))
    decreases Size(a), k
  {
    BitsOfExtremes(k);
    if a != 0 && a != -1 {
      Halves(And(a / 2, b / 2), if a % 2 == 1 && b % 2 == 1 then 1 else 0);
      if k > 0 { AndBits(a / 2, b / 2, k - 1); }
    }
  }

  lemma OrBits(a: int, b: int, k: nat)
    ensures BitAt(Or(a, b), k) == (BitAt(a, k) || BitAt(b, k))
  {
    NotBits(a, k);
    NotBits(b, k);
    AndBits(Not(a), Not(b), k);
    NotBits(And(Not(a), Not(b)), k);
  }

  lemma XorBits(a: int, b: int, k: nat)
    ensures BitAt(Xor(a, b), k) == (BitAt(a, k) != BitAt(b, k))
  {
    OrBits(a, b, k);
    AndBits(a, b, k);
    NotBits(And(a, b), k);
    AndBits(Or(a, b), Not(And(a, b)), k);
  }

  lemma {:induction false} PowBits(n: nat, k: nat)
    ensures BitAt(Pow2(n), k) == (n == k)
    decreases n
  {
    if n == 0 {
      if k > 0 { BitsOfExtremes(k - 1); }
    } else if k > 0 {
      PowBits(n - 1, k - 1);
    }
  }

  ghost predicate SameBits(a: int, b: int) {
    forall k: nat :: BitAt(a, k) == BitAt(b, k)
  }

  /** An integer is determined by its bits. */
  lemma {:induction false} BitsDetermine(a: int, b: int)
    requires SameBits(a, b)
    ensures a == b
    decreases Size(a) + Size(b)
  {
    assert BitAt(a, 0) == BitAt(b, 0);
    if Size(a / 2) + Size(b / 2) < Size(a) + Size(b) {
      forall k: nat ensures BitAt(a / 2, k) == BitAt(b / 2, k) {
        assert BitAt(a, k + 1) == BitAt(b, k + 1);
      }
      BitsDetermine(a / 2, b / 2);
    }
  }

  /** The bits of the remainder are the low bits. */
  lemma {:induction false} ModBits(v: int, n: nat, k: nat)
    ensures BitAt(v % Pow2(n), k) == (k < n && BitAt(v, k))
    decreases n
  {
    if n == 0 {
      BitsOfExtremes(k);
    } else {
      ModHalves(v, Pow2(n - 1));
      Halves((v / 2) % Pow2(n - 1), v % 2);
      if k > 0 { ModBits(v / 2, n - 1, k - 1); }
    }
  }

  lemma ModHalves(v: int, m: nat)
    requires m > 0
    ensures v % (2 * m) == 2 * ((v / 2) % m) + v % 2
  {
    var q, r := (v / 2) / m, (v / 2) % m;
    assert v == (2 * m) * q + (2 * r + v % 2);
    DivisionIsUnique(v, 2 * m, q, 2 * r + v % 2);
  }

  lemma SmallRemainder(v: int, m: nat)
    requires m > 0
    ensures 0 <= v < m <==> v % m == v
  {
    if 0 <= v < m { DivisionIsUnique(v, m, 0, v); }
  }

  ghost predicate NoBitsFrom(v: int, n: nat) {
    forall k: nat :: k >= n ==> !BitAt(v, k)
  }

  /** The numbers that fit in n bits are those without a bit from n on. */
  lemma RangeIsLowBits(v: int, n: nat)
    ensures 0 <= v < Pow2(n) <==> NoBitsFrom(v, n)
  {
    SmallRemainder(v, Pow2(n));
    if 0 <= v < Pow2(n) {
      LowBitsOnly(v, n);
    }
    if NoBitsFrom(v, n) {
      forall k: nat ensures BitAt(v % Pow2(n), k) == BitAt(v, k) { ModBits(v, n, k); }
      BitsDetermine(v % Pow2(n), v);
    }
  }

  lemma LowBitsOnly(v: int, n: nat)
    requires v % Pow2(n) == v
    ensures NoBitsFrom(v, n)
  {
    forall k: nat | k >= n ensures !BitAt(v, k) { ModBits(v, n, k); }
  }

  // ---------------------------------------------------------------------------------------------
  // Flags
  // ---------------------------------------------------------------------------------------------

  /** The set of flags an integer stands for, with `n` flags in the field. */
  function Flags(v: int, n: nat): set<nat> {
    set k: nat | k < n && BitAt(v, k)
  }

  predicate InRange(v: int, n: nat) { 0 <= v < Pow2(n) }

  /** A mask picks out one bit. */
  lemma MaskTests(v: int, n: nat)
    ensures And(v, Pow2(n)) == if BitAt(v, n) then Pow2(n) else 0
  {
    var expected := if BitAt(v, n) then Pow2(n) else 0;
    forall k: nat ensures BitAt(And(v, Pow2(n)), k) == BitAt(expected, k) {
      AndBits(v, Pow2(n), k);
      PowBits(n, k);
      BitsOfExtremes(k);
    }
    BitsDetermine(And(v, Pow2(n)), expected);
  }

  /** The value after setting or clearing one flag. */
  function WithBit(v: int, n: nat, on: bool): int {
    if on then Or(v, Pow2(n)) else And(v, Not(Pow2(n)))
  }

  lemma WithBitBits(v: int, n: nat, on: bool, k: nat)
    ensures BitAt(WithBit(v, n, on), k) == if k == n then on else BitAt(v, k)
  {
    PowBits(n, k);
    NotBits(Pow2(n), k);
    OrBits(v, Pow2(n), k);
    AndBits(v, Not(Pow2(n)), k);
  }

  /** Setting a flag adds it to the set and clearing one takes it out, whatever the value was; the
      value stays in range. */
  lemma WithBitFlags(v: int, n: nat, on: bool, count: nat)
    requires n < count
    ensures Flags(WithBit(v, n, on), count) == if on then Flags(v, count) + {n} else Flags(v, count) - {n}
    ensures InRange(v, count) ==> InRange(WithBit(v, n, on), count)
  {
    var w := WithBit(v, n, on);
    forall k: nat ensures BitAt(w, k) == if k == n then on else BitAt(v, k) { WithBitBits(v, n, on, k); }
    RangeIsLowBits(v, count);
    RangeIsLowBits(w, count);
  }

  /** In range, the integer and the set determine each other. */
  lemma FlagsDetermine(a: int, b: int, count: nat)
    requires InRange(a, count) && InRange(b, count)
    ensures a == b <==> Flags(a, count) == Flags(b, count)
  {
    if Flags(a, count) == Flags(b, count) {
      RangeIsLowBits(a, count);
      RangeIsLowBits(b, count);
      forall k: nat ensures BitAt(a, k) == BitAt(b, k) {
        if k < count { assert k in Flags(a, count) <==> k in Flags(b, count); }
      }
      BitsDetermine(a, b);
    }
  }

  /** The operators are intersection, union and symmetric difference, and stay in range. */
  lemma OperatorsOnFlags(a: int, b: int, count: nat)
    ensures Flags(And(a, b), count) == Flags(a, count) * Flags(b, count)
    ensures Flags(Or(a, b), count) == Flags(a, count) + Flags(b, count)
    ensures Flags(Xor(a, b), count) == (Flags(a, count) - Flags(b, count)) + (Flags(b, count) - Flags(a, count))
    ensures InRange(a, count) && InRange(b, count) ==>
              InRange(And(a, b), count) && InRange(Or(a, b), count) && InRange(Xor(a, b), count)
  {
    forall k: nat
      ensures BitAt(And(a, b), k) == (BitAt(a, k) && BitAt(b, k))
      ensures BitAt(Or(a, b), k) == (BitAt(a, k) || BitAt(b, k))
      ensures BitAt(Xor(a, b), k) == (BitAt(a, k) != BitAt(b, k))
    {
      AndBits(a, b, k);
      OrBits(a, b, k);
      XorBits(a, b, k);
    }
    RangeIsLowBits(a, count);
    RangeIsLowBits(b, count);
    RangeIsLowBits(And(a, b), count);
    RangeIsLowBits(Or(a, b), count);
    RangeIsLowBits(Xor(a, b), count);
  }

  datatype FlagError = NotAFlag | TooManyFlags

  /** The position of a key; the first one, if it is listed twice. */
  function Index(keys: seq<string>, key: string): (r: Result<nat, FlagError>)
    ensures r.Success? <==> key in keys
    ensures r.Failure? ==> r.error == NotAFlag
    ensures r.Success? ==> r.value < |keys| && keys[r.value] == key && key !in keys[..r.value]
  {
    if keys == [] then Failure(NotAFlag)
    else if keys[0] == key then Success(0)
    else
      match Index(keys[1..], key)
      case Failure(e) => Failure(e)
      case Success(k) =>
        assert keys[..k + 1] == [keys[0]] + keys[1..][..k];
        Success(k + 1)
  }

  class BitHandler {
    var value: int
    const keys: seq<string>

    /** What was assigned to private names. */
    var attributes: map<string, bool>

    constructor (value: int, keys: seq<string>)
      ensures this.value == value && this.keys == keys && attributes == map[]
    {
      this.value, this.keys, attributes := value, keys, map[];
    }

    /** The flags that are set. */
    function Set(): set<nat>
      reads this
    {
      Flags(value, |keys|)
    }

    method GetBit(n: nat) returns (on: bool)
      ensures on == BitAt(value, n)
    {
      var mask := Pow2(n);
      MaskTests(value, n);
      on := And(value, mask) != 0;
    }

    method SetBit(n: nat, on: bool) returns (isSet: bool)
      modifies this`value
      ensures isSet == on && value == WithBit(old(value), n, on)
      ensures forall k: nat :: BitAt(value, k) == if k == n then on else BitAt(old(value), k)
      ensures n < |keys| ==> Set() == if on then old(Set()) + {n} else old(Set()) - {n}
      ensures n < |keys| && InRange(old(value), |keys|) ==> InRange(value, |keys|)
    {
      var mask := Pow2(n);
      value := if on then Or(value, mask) else And(value, Not(mask));
      if n < |keys| { WithBitFlags(old(value), n, on, |keys|); }
      forall k: nat ensures BitAt(value, k) == if k == n then on else BitAt(old(value), k) {
        WithBitBits(old(value), n, on, k);
      }
      isSet := GetBit(n);
    }

    /** `key in handler`. */
    method Contains(key: string) returns (r: Result<bool, FlagError>)
      ensures r.Failure? <==> key !in keys
      ensures key in keys ==> r == Success(Index(keys, key).value in Set())
    {
      match Index(keys, key) {
        case Failure(e) => return Failure(e);
        case Success(n) =>
          var on := GetBit(n);
          return Success(on);
      }
    }

    /** `handler.key = on`. A private name is an attribute of the handler even if a flag is called so;
        one of them is the handler's own value, and a truth value assigned to it counts as a number. */
    method SetItem(key: string, on: bool) returns (r: Assigned)
      modifies this
      ensures r == if IsPrivate(key) then ToAttribute else if key in keys then ToFlag else Refused
      ensures r.Refused? ==> value == old(value)
      ensures r.ToFlag? ==>
                var n := Index(keys, key).value;
                && Set() == (if on then old(Set()) + {n} else old(Set()) - {n})
                && (InRange(old(value), |keys|) ==> InRange(value, |keys|))
      ensures r.ToAttribute? ==> value == if key != "_value" then old(value) else if on then 1 else 0
      ensures attributes == if r.ToAttribute? then old(attributes)[key := on] else old(attributes)
    {
      if IsPrivate(key) {
        attributes := attributes[key := on];
        if key == "_value" { value := if on then 1 else 0; }
        return ToAttribute;
      }
      if key !in keys { return Refused; }
      var n := Index(keys, key).value;
      var _ := SetBit(n, on);
      return ToFlag;
    }
  }

  datatype Assigned = ToFlag | ToAttribute | Refused

  predicate IsPrivate(key: string) { key != "" && key[0] == '_' }

  /** Private names are those that start with an underscore. */
  lemma PrivateNames(key: string, rest: string)
    ensures IsPrivate("_" + rest) && (IsPrivate(key) <==> "_" <= key)
  {
  }

  datatype SetBitCall = SetBitCall(n: nat, on: bool)

  function SetBits(v: int, calls: seq<SetBitCall>): int {
    if calls == [] then v
    else WithBit(SetBits(v, calls[..|calls| - 1]), calls[|calls| - 1].n, calls[|calls| - 1].on)
  }

  /** After any sequence of calls on flags of the field the value is in range, each flag is as the last
      call on it left it, and flags nobody called for are as they were. */
  lemma {:induction false} SetBitsKeepRange(v: int, calls: seq<SetBitCall>, count: nat, k: nat)
    requires InRange(v, count) && k < count
    requires forall c :: c in calls ==> c.n < count
    ensures InRange(SetBits(v, calls), count)
    ensures (forall c :: c in calls ==> c.n != k) ==> BitAt(SetBits(v, calls), k) == BitAt(v, k)
    ensures forall j :: 0 <= j < |calls| && calls[j].n == k && (forall i :: j < i < |calls| ==> calls[i].n != k)
              ==> BitAt(SetBits(v, calls), k) == calls[j].on
  {
    if calls != [] {
      var m := |calls| - 1;
      var before := SetBits(v, calls[..m]);
      assert calls == calls[..m] + [calls[m]];
      SetBitsKeepRange(v, calls[..m], count, k);
      WithBitFlags(before, calls[m].n, calls[m].on, count);
      WithBitBits(before, calls[m].n, calls[m].on, k);
    }
  }

  // ---------------------------------------------------------------------------------------------
  // The field
  // ---------------------------------------------------------------------------------------------

  /** Reading a value of the column. A negative one is repaired flag by flag. */
  method ToPython(value: int, flags: seq<string>) returns (r: BitHandler)
    ensures fresh(r) && r.keys == flags
    ensures r.value == if value < 0 then value % Pow2(|flags|) else value
  {
    var v := value;
    if value < 0 {
      var repaired := 0;
      for n := 0 to |flags|
        invariant repaired == value % Pow2(n)
      {
        OneMoreBit(value, n);
        repaired := Or(repaired, And(value, Pow2(n)));
      }
      v := repaired;
    }
    r := new BitHandler(v, flags);
  }

  lemma OneMoreBit(v: int, n: nat)
    ensures Or(v % Pow2(n), And(v, Pow2(n))) == v % Pow2(n + 1)
  {
    var next := Or(v % Pow2(n), And(v, Pow2(n)));
    forall k: nat ensures BitAt(next, k) == BitAt(v % Pow2(n + 1), k) {
      OrBits(v % Pow2(n), And(v, Pow2(n)), k);
      AndBits(v, Pow2(n), k);
      PowBits(n, k);
      ModBits(v, n, k);
      ModBits(v, n + 1, k);
    }
    BitsDetermine(next, v % Pow2(n + 1));
  }

  function Repair(v: int, count: nat): int { if v < 0 then v % Pow2(count) else v }

  /** A repaired value is in range, shows the application the same flags as before, is the only value
      in range that does, and is left alone by another repair. */
  lemma RepairKeepsFlags(v: int, count: nat)
    requires v < 0
    ensures InRange(Repair(v, count), count)
    ensures Flags(Repair(v, count), count) == Flags(v, count)
    ensures forall k: nat :: k < count ==> BitAt(Repair(v, count), k) == BitAt(v, k)
    ensures forall w: int :: InRange(w, count) && Flags(w, count) == Flags(v, count) ==> w == Repair(v, count)
    ensures Repair(Repair(v, count), count) == Repair(v, count)
  {
    var r := Repair(v, count);
    forall k: nat | k < count ensures BitAt(r, k) == BitAt(v, k) { ModBits(v, count, k); }
    forall w: int | InRange(w, count) && Flags(w, count) == Flags(v, count) ensures w == r {
      FlagsDetermine(w, r, count);
    }
  }

  /** The mask of a cleared flag is negative; a column it was saved to reads as all other flags. */
  lemma ClearedFlagReadsAsTheOthers(n: nat, count: nat)
    requires n < count
    ensures forall k: nat :: k in Flags(Repair(Not(Pow2(n)), count), count) <==> k < count && k != n
  {
    RepairKeepsFlags(Not(Pow2(n)), count);
    forall k: nat ensures BitAt(Not(Pow2(n)), k) == (k != n) {
      NotBits(Pow2(n), k);
      PowBits(n, k);
    }
  }

  // ---------------------------------------------------------------------------------------------
  // The column
  // ---------------------------------------------------------------------------------------------

  const MAX_BIGINT: int := 9223372036854775807

  function BinaryLength(v: nat): nat {
    if v < 2 then 1 else 1 + BinaryLength(v / 2)
  }

  /** As many flags as the largest value of the column has binary digits. */
  const MAX_FLAG_COUNT: nat := 63

  lemma {:induction false} LengthOfAllOnes(n: nat)
    requires n > 0
    ensures BinaryLength(Pow2(n) - 1) == n
  {
    if n > 1 {
      Halves(Pow2(n - 1) - 1, 1);
      LengthOfAllOnes(n - 1);
    }
  }

  lemma {:induction false} PowSum(a: nat, b: nat)
    ensures Pow2(a + b) == Pow2(a) * Pow2(b)
  {
    if a > 0 { PowSum(a - 1, b); }
  }

  lemma MaxIsAllOnes()
    ensures Pow2(MAX_FLAG_COUNT) - 1 == MAX_BIGINT
  {
    assert Pow2(7) == 128;
    PowSum(7, 7);
    PowSum(14, 7);
    PowSum(21, 21);
    PowSum(42, 21);
  }

  lemma {:induction false} PowGrows(a: nat, b: nat)
    requires a <= b
    ensures Pow2(a) <= Pow2(b)
  {
    if a < b { PowGrows(a, b - 1); }
  }

  /** A field with at most the maximum number of flags never has a value too large for its column, and
      the maximum is the number of binary digits of the largest value; with one flag more there is a
      value that does not fit. */
  lemma ValuesFitTheColumn(count: nat)
    ensures BinaryLength(MAX_BIGINT) == MAX_FLAG_COUNT
    ensures count <= MAX_FLAG_COUNT <==> forall v :: InRange(v, count) ==> v <= MAX_BIGINT
  {
    LengthOfAllOnes(MAX_FLAG_COUNT);
    MaxIsAllOnes();
    if count <= MAX_FLAG_COUNT {
      PowGrows(count, MAX_FLAG_COUNT);
    } else {
      PowGrows(MAX_FLAG_COUNT + 1, count);
      assert InRange(MAX_BIGINT + 1, count);
    }
  }

  /** Declaring a field: its default, from the flags that are on by default. */
  method BuildDefault(flags: seq<string>, default: seq<string>) returns (r: Result<int, FlagError>)
    ensures r == Failure(TooManyFlags) <==> |flags| > MAX_FLAG_COUNT
    ensures r.Failure? <==> |flags| > MAX_FLAG_COUNT || exists f :: f in default && f !in flags
    ensures r.Success? ==>
              && InRange(r.value, |flags|) && r.value <= MAX_BIGINT
              && Flags(r.value, |flags|) == set f | f in default && f in flags :: Index(flags, f).value
  {
    if |flags| > MAX_FLAG_COUNT { return Failure(TooManyFlags); }
    ValuesFitTheColumn(|flags|);
    var value := 0;
    RangeIsLowBits(0, |flags|);
    forall k: nat ensures !BitAt(0, k) { BitsOfExtremes(k); }
    for j := 0 to |default|
      invariant forall f :: f in default[..j] ==> f in flags
      invariant InRange(value, |flags|)
      invariant Flags(value, |flags|) == set f | f in default[..j] && f in flags :: Index(flags, f).value
    {
      var f := default[j];
      assert default[..j + 1] == default[..j] + [f];
      if f !in flags {
        assert f in default;
        return Failure(NotAFlag);
      }
      var n := Index(flags, f).value;
      WithBitFlags(value, n, true, |flags|);
      value := Or(value, Pow2(n));
    }
    assert default[..|default|] == default;
    return Success(value);
  }
}
