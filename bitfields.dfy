/**
 * The structs exercise's packed attribute words: four 4-bit numbers in a
 * 16-bit word, three 10-bit numbers in a 32-bit word, and six one-bit flags
 * in a byte.  Each Set overwrites the receiver word in Go; here it returns
 * the new word, or the panic the Go method raises.
 */
module BitFields {
  import opened Wrappers

  type SmallNumbers = bv16
  type MediumNumbers = bv32
  type Booleans = bv8

  /** Indices of the 4-bit fields. */
  type SmallNumber = bv8
  const Level: SmallNumber := 0
  const Experience: SmallNumber := 1
  const Respect: SmallNumber := 2
  const Strength: SmallNumber := 3

  /** Single-bit masks of the flags. */
  type Boolean = bv8
  const HasHouse: Boolean := 1
  const HasGun: Boolean := 2
  const HasFamily: Boolean := 4
  const IsWarrior: Boolean := 8
  const IsBlacksmith: Boolean := 16
  const IsBuilder: Boolean := 32

  /** Indices of the 10-bit fields. */
  type MediumNumber = bv8
  const Health: MediumNumber := 0
  const Mana: MediumNumber := 1
  const FirsNameByte: MediumNumber := 2

  /** SmallNumber.IsValid: one of the four declared indices, that is, below 4. */
  predicate SmallNumberIsValid(a: SmallNumber)
  {
    a == Level || a == Experience || a == Respect || a == Strength
  }

  /** Boolean.IsValid: one of the six declared flags. */
  predicate BooleanIsValid(a: Boolean)
  {
    a == HasHouse || a == HasGun || a == HasFamily || a == IsWarrior || a == IsBlacksmith || a == IsBuilder
  }

  /** MediumNumber.IsValid: one of the three declared indices. */
  predicate MediumNumberIsValid(a: MediumNumber)
  {
    a == Health || a == Mana || a == FirsNameByte
  }

  /** The valid small and medium indices are exactly the first four and three numbers. */
  lemma IndicesAreRanges(a: bv8)
    ensures SmallNumberIsValid(a) <==> a < 4
    ensures MediumNumberIsValid(a) <==> a < 3
  {
  }

  /** The valid flags are exactly the single bits among the low six. */
  lemma FlagsAreLowBits(a: bv8)
    ensures BooleanIsValid(a) <==> a != 0 && a & (a - 1) == 0 && a < 64
  {
  }

  /** The bits of the 4-bit field at a valid index, all of them inside the 16-bit word. */
  function SmallMask(index: SmallNumber): (mask: SmallNumbers)
    requires SmallNumberIsValid(index)
    ensures mask >> ((index * 4) as bv16) == 0xF
  {
    0xF << ((index * 4) as bv16)
  }

  /** The bits of the 10-bit field at a valid index, all of them inside bits 0-29. */
  function MediumMask(index: MediumNumber): (mask: MediumNumbers)
    requires MediumNumberIsValid(index)
    ensures mask >> ((index * 10) as bv32) == 0x3FF && mask < 0x4000_0000
  {
    0x3FF << ((index * 10) as bv32)
  }

  /** SmallNumbers.Get: the 4-bit field at index; an invalid index panics. */
  function SmallNumbersGet(p: SmallNumbers, index: SmallNumber): (r: Result<int>)
    ensures r.Panic? <==> !SmallNumberIsValid(index)
    ensures r.Panic? ==> r.message == "invalid index"
    ensures r.Ok? ==> 0 <= r.value < 16
  {
    if !SmallNumberIsValid(index) then Panic("invalid index")
    else
      var shift := (index * 4) as bv16;
      Ok(((p >> shift) & 0xF) as int)
  }

  /**
   * SmallNumbers.Set: the value range is checked before the index; a stored
   * value reads back, and no bit outside the field moves.
   */
  function SmallNumbersSet(p: SmallNumbers, index: SmallNumber, value: int): (r: Result<SmallNumbers>)
    ensures !(0 <= value <= 10) ==> r == Panic("value out of range expected 0-10")
    ensures 0 <= value <= 10 && !SmallNumberIsValid(index) ==> r == Panic("invalid index")
    ensures 0 <= value <= 10 && SmallNumberIsValid(index) ==> r.Ok?
  {
    if value < 0 || value > 10 then Panic("value out of range expected 0-10")
    else if !SmallNumberIsValid(index) then Panic("invalid index")
    else
      var shift := (index * 4) as bv16;
      var mask: SmallNumbers := 0xF << shift;
      Ok((p & !mask) | ((value as bv16) << shift))
  }

  /** A stored small value reads back. */
  lemma SmallNumbersRoundTrip(p: SmallNumbers, index: SmallNumber, value: int)
    requires SmallNumberIsValid(index) && 0 <= value <= 10
    ensures SmallNumbersGet(SmallNumbersSet(p, index, value).value, index) == Ok(value)
  {
    SmallValueBits(value);
    var b := value as bv16;
    if index == Level {
      SmallFieldBits(p, b, 0);
    } else if index == Experience {
      SmallFieldBits(p, b, 4);
    } else if index == Respect {
      SmallFieldBits(p, b, 8);
    } else {
      SmallFieldBits(p, b, 12);
    }
  }

  /** Storing a small value moves no bit outside its field. */
  lemma SmallNumbersKeepsOtherBits(p: SmallNumbers, index: SmallNumber, value: int)
    requires SmallNumberIsValid(index) && 0 <= value <= 10
    ensures SmallNumbersSet(p, index, value).value & !SmallMask(index) == p & !SmallMask(index)
  {
    SmallValueBits(value);
    var b := value as bv16;
    if index == Level {
      SmallFieldBits(p, b, 0);
    } else if index == Experience {
      SmallFieldBits(p, b, 4);
    } else if index == Respect {
      SmallFieldBits(p, b, 8);
    } else {
      SmallFieldBits(p, b, 12);
    }
  }

  /** An in-range small value converts to a 16-bit word below 16 and back unchanged. */
  lemma SmallValueBits(value: int)
    requires 0 <= value <= 10
    ensures (value as bv16) as int == value && value as bv16 < 16
  {
    assert value % 0x1_0000 == value;
    assert (value as bv16) as int == value % 0x1_0000;
  }

  /** Writing a 4-bit value at one of the four field offsets, as pure bit-vector algebra. */
  lemma SmallFieldBits(p: SmallNumbers, b: SmallNumbers, shift: SmallNumbers)
    requires b < 16 && (shift == 0 || shift == 4 || shift == 8 || shift == 12)
    ensures (((p & !(0xF << shift)) | (b << shift)) >> shift) & 0xF == b
    ensures ((p & !(0xF << shift)) | (b << shift)) & !(0xF << shift) == p & !(0xF << shift)
  {
    if shift == 0 {
    } else if shift == 4 {
    } else if shift == 8 {
    } else {
    }
  }

  /** Setting one small field leaves every other small field reading as before. */
  lemma SmallNumbersFrame(p: SmallNumbers, i: SmallNumber, j: SmallNumber, value: int)
    requires SmallNumberIsValid(i) && SmallNumberIsValid(j) && i != j && 0 <= value <= 10
    ensures SmallNumbersGet(SmallNumbersSet(p, i, value).value, j) == SmallNumbersGet(p, j)
  {
  }

  /** MediumNumbers.Get: the 10-bit field at index; an invalid index panics. */
  function MediumNumbersGet(p: MediumNumbers, index: MediumNumber): (r: Result<int>)
    ensures r.Panic? <==> !MediumNumberIsValid(index)
    ensures r.Panic? ==> r.message == "invalid index"
    ensures r.Ok? ==> 0 <= r.value < 1024
  {
    if !MediumNumberIsValid(index) then Panic("invalid index")
    else
      var shift := (index * 10) as bv32;
      Ok(((p >> shift) & 0x3FF) as int)
  }

  /**
   * MediumNumbers.Set: the value range is checked before the index; a stored
   * value reads back, and no bit outside the field moves.
   */
  function MediumNumbersSet(p: MediumNumbers, index: MediumNumber, value: int): (r: Result<MediumNumbers>)
    ensures !(0 <= value <= 1000) ==> r == Panic("value out of range expected 0-1000")
    ensures 0 <= value <= 1000 && !MediumNumberIsValid(index) ==> r == Panic("invalid index")
    ensures 0 <= value <= 1000 && MediumNumberIsValid(index) ==> r.Ok?
  {
    if value < 0 || value > 1000 then Panic("value out of range expected 0-1000")
    else if !MediumNumberIsValid(index) then Panic("invalid index")
    else
      var shift := (index * 10) as bv32;
      var mask: MediumNumbers := 0x3FF << shift;
      Ok((p & !mask) | ((value as bv32) << shift))
  }

  /** A stored medium value reads back. */
  lemma MediumNumbersRoundTrip(p: MediumNumbers, index: MediumNumber, value: int)
    requires MediumNumberIsValid(index) && 0 <= value <= 1000
    ensures MediumNumbersGet(MediumNumbersSet(p, index, value).value, index) == Ok(value)
  {
    MediumValueBits(value);
    var b := value as bv32;
    if index == Health {
      MediumFieldBits(p, b, 0);
    } else if index == Mana {
      MediumFieldBits(p, b, 10);
    } else {
      MediumFieldBits(p, b, 20);
    }
  }

  /** Storing a medium value moves no bit outside its field. */
  lemma MediumNumbersKeepsOtherBits(p: MediumNumbers, index: MediumNumber, value: int)
    requires MediumNumberIsValid(index) && 0 <= value <= 1000
    ensures MediumNumbersSet(p, index, value).value & !MediumMask(index) == p & !MediumMask(index)
  {
    MediumValueBits(value);
    var b := value as bv32;
    if index == Health {
      MediumFieldBits(p, b, 0);
    } else if index == Mana {
      MediumFieldBits(p, b, 10);
    } else {
      MediumFieldBits(p, b, 20);
    }
  }

  /** An in-range medium value converts to a 32-bit word below 1024 and back unchanged. */
  lemma MediumValueBits(value: int)
    requires 0 <= value <= 1000
    ensures (value as bv32) as int == value && value as bv32 < 1024
  {
    assert value % 0x1_0000_0000 == value;
    assert (value as bv32) as int == value % 0x1_0000_0000;
  }

  /** Writing a 10-bit value at one of the three field offsets, as pure bit-vector algebra. */
  lemma MediumFieldBits(p: MediumNumbers, b: MediumNumbers, shift: MediumNumbers)
    requires b < 1024 && (shift == 0 || shift == 10 || shift == 20)
    ensures (((p & !(0x3FF << shift)) | (b << shift)) >> shift) & 0x3FF == b
    ensures ((p & !(0x3FF << shift)) | (b << shift)) & !(0x3FF << shift) == p & !(0x3FF << shift)
  {
    if shift == 0 {
    } else if shift == 10 {
    } else {
    }
  }

  /** Setting one medium field leaves every other medium field reading as before. */
  lemma MediumNumbersFrame(p: MediumNumbers, i: MediumNumber, j: MediumNumber, value: int)
    requires MediumNumberIsValid(i) && MediumNumberIsValid(j) && i != j && 0 <= value <= 1000
    ensures MediumNumbersGet(MediumNumbersSet(p, i, value).value, j) == MediumNumbersGet(p, j)
  {
    MediumValueBits(value);
    MediumOtherField(p, value as bv32, (i * 10) as bv32, (j * 10) as bv32);
  }

  /** Writing one 10-bit field leaves a different field's bits as they were. */
  lemma MediumOtherField(p: MediumNumbers, b: MediumNumbers, s: MediumNumbers, t: MediumNumbers)
    requires b < 1024
    requires s == 0 || s == 10 || s == 20
    requires t == 0 || t == 10 || t == 20
    requires s != t
    ensures (((p & !(0x3FF << s)) | (b << s)) >> t) & 0x3FF == (p >> t) & 0x3FF
  {
    if s == 0 {
      if t == 10 {
      } else {
      }
    } else if s == 10 {
      if t == 0 {
      } else {
      }
    } else {
      if t == 0 {
      } else {
      }
    }
  }

  /** Booleans.Get: whether the flag's bit is set; an invalid flag panics. */
  function BooleansGet(p: Booleans, index: Boolean): (r: Result<bool>)
    ensures r.Panic? <==> !BooleanIsValid(index)
    ensures r.Panic? ==> r.message == "invalid index"
  {
    if !BooleanIsValid(index) then Panic("invalid index")
    else Ok(p & index != 0)
  }

  /** Booleans.Set: raises or clears exactly the flag's bit; an invalid flag panics. */
  function BooleansSet(p: Booleans, index: Boolean, value: bool): (r: Result<Booleans>)
    ensures !BooleanIsValid(index) ==> r == Panic("invalid index")
    ensures BooleanIsValid(index) ==> r.Ok?
  {
    if !BooleanIsValid(index) then Panic("invalid index")
    else if value then Ok(p | index)
    else Ok(p & !index)
  }

  /** A set flag reads back, and no other bit of the byte moves. */
  lemma BooleansRoundTrip(p: Booleans, index: Boolean, value: bool)
    requires BooleanIsValid(index)
    ensures BooleansGet(BooleansSet(p, index, value).value, index) == Ok(value)
    ensures BooleansSet(p, index, value).value & !index == p & !index
  {
    if value {
      assert (p | index) & index != 0;
    } else {
      assert (p & !index) & index == 0;
    }
  }

  /** Setting one flag leaves every other flag reading as before. */
  lemma BooleansFrame(p: Booleans, i: Boolean, j: Boolean, value: bool)
    requires BooleanIsValid(i) && BooleanIsValid(j) && i != j
    ensures BooleansGet(BooleansSet(p, i, value).value, j) == BooleansGet(p, j)
  {
  }
}
