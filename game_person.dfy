/**
 * The structs exercise's game character: coordinates, gold, three packed
 * attribute words and a 41-byte name tail, built by applying functional
 * options to a zero value and read back through getters.
 *
 * Go's options write into the struct through a pointer; the struct is a
 * value that NewGamePerson owns alone, so each option is modelled as the
 * function from the struct before to the struct after (or the panic).
 */
module GamePersons {
  import opened Wrappers
  import opened BitFields

  type byte = b: int | 0 <= b < 0x100
  type int32 = v: int | -0x8000_0000 <= v < 0x8000_0000
  type uint32 = v: int | 0 <= v < 0x1_0000_0000

  /** The fixed-size tail of the name: every byte but the first. */
  type NameTail = s: seq<byte> | |s| == 41 witness seq(41, _ => 0)

  datatype GamePerson = GamePerson(
    x: int32, y: int32, z: int32,
    gold: uint32,
    mediumNumbers: MediumNumbers,
    smallNumbers: SmallNumbers,
    booleans: Booleans,
    name: NameTail)

  /** The struct's zero value, which NewGamePerson starts from. */
  function Zero(): GamePerson
  {
    GamePerson(0, 0, 0, 0, 0, 0, 0, seq(41, _ => 0))
  }

  /** The person types, in declaration order. */
  const BuilderGamePersonType := 0
  const BlacksmithGamePersonType := 1
  const WarriorGamePersonType := 2

  /** Go's conversion int32(v): two's-complement wrap-around into 32 bits. */
  function ToInt32(v: int): (r: int32)
    ensures (r - v) % 0x1_0000_0000 == 0
    ensures -0x8000_0000 <= v < 0x8000_0000 ==> r == v
  {
    (v + 0x8000_0000) % 0x1_0000_0000 - 0x8000_0000
  }

  /** Go's conversion uint32(v): the value modulo 2^32. */
  function ToUint32(v: int): (r: uint32)
    ensures (r - v) % 0x1_0000_0000 == 0
    ensures 0 <= v < 0x1_0000_0000 ==> r == v
  {
    v % 0x1_0000_0000
  }

  function Min(a: int, b: int): int
  {
    if a < b then a else b
  }

  /** Go's copy(dst[:], src): the first min(41, |src|) bytes come from src, the rest stay. */
  function CopyInto(dst: NameTail, src: seq<byte>): (r: NameTail)
    ensures forall i :: 0 <= i < Min(41, |src|) ==> r[i] == src[i]
    ensures forall i :: Min(41, |src|) <= i < 41 ==> r[i] == dst[i]
  {
    var n := Min(41, |src|);
    src[..n] + dst[n..]
  }

  /** The functional options, one constructor per With* function. */
  datatype PersonOption =
    | WithName(name: seq<byte>)
    | WithCoordinates(cx: int, cy: int, cz: int)
    | WithGold(amount: int)
    | WithMana(mana: int)
    | WithHealth(health: int)
    | WithRespect(respect: int)
    | WithStrength(strength: int)
    | WithExperience(experience: int)
    | WithLevel(level: int)
    | WithHouse
    | WithGun
    | WithFamily
    | WithType(personType: int)

  /** The options that do not panic: a non-empty name and numbers inside their field's range. */
  predicate Admissible(opt: PersonOption)
  {
    match opt
    case WithName(name) => |name| > 0
    case WithMana(v) => 0 <= v <= 1000
    case WithHealth(v) => 0 <= v <= 1000
    case WithRespect(v) => 0 <= v <= 10
    case WithStrength(v) => 0 <= v <= 10
    case WithExperience(v) => 0 <= v <= 10
    case WithLevel(v) => 0 <= v <= 10
    case _ => true
  }

  /** Stores a 10-bit attribute, or the range panic. */
  function SetMedium(p: GamePerson, index: MediumNumber, v: int): (r: Result<GamePerson>)
    requires MediumNumberIsValid(index)
    ensures r.Ok? <==> 0 <= v <= 1000
  {
    var m := MediumNumbersSet(p.mediumNumbers, index, v);
    if m.Panic? then Panic(m.message) else Ok(p.(mediumNumbers := m.value))
  }

  /** Stores a 4-bit attribute, or the range panic. */
  function SetSmall(p: GamePerson, index: SmallNumber, v: int): (r: Result<GamePerson>)
    requires SmallNumberIsValid(index)
    ensures r.Ok? <==> 0 <= v <= 10
  {
    var s := SmallNumbersSet(p.smallNumbers, index, v);
    if s.Panic? then Panic(s.message) else Ok(p.(smallNumbers := s.value))
  }

  /** Raises or clears one flag of a valid flag mask. */
  function Flag(b: Booleans, index: Boolean, value: bool): Booleans
    requires BooleanIsValid(index)
  {
    BooleansSet(b, index, value).value
  }

  /**
   * WithName on a non-empty name: the first byte goes to the 10-bit field (a
   * byte always fits it, so this Set cannot panic), the rest is copied into
   * the tail.
   */
  function StoreName(p: GamePerson, name: seq<byte>): GamePerson
    requires |name| > 0
  {
    var m := MediumNumbersSet(p.mediumNumbers, FirsNameByte, name[0]).value;
    p.(mediumNumbers := m, name := CopyInto(p.name, name[1..]))
  }

  /** WithType on the flag byte: lower all three type flags, then raise the one for t, if any. */
  function StoreType(b: Booleans, t: int): Booleans
  {
    var cleared := Flag(Flag(Flag(b, IsBlacksmith, false), IsWarrior, false), IsBuilder, false);
    if t == BuilderGamePersonType then Flag(cleared, IsBuilder, true)
    else if t == BlacksmithGamePersonType then Flag(cleared, IsBlacksmith, true)
    else if t == WarriorGamePersonType then Flag(cleared, IsWarrior, true)
    else cleared
  }

  /**
   * The effect of one option on the struct.  WithName indexes name[0] before
   * anything else, so an empty name is Go's index-out-of-range panic.
   */
  function Apply(p: GamePerson, opt: PersonOption): (r: Result<GamePerson>)
    ensures r.Ok? <==> Admissible(opt)
  {
    match opt
    case WithName(name) =>
      if |name| == 0 then Panic("runtime error: index out of range [0] with length 0")
      else Ok(StoreName(p, name))
    case WithCoordinates(cx, cy, cz) =>
      Ok(p.(x := ToInt32(cx), y := ToInt32(cy), z := ToInt32(cz)))
    case WithGold(amount) => Ok(p.(gold := ToUint32(amount)))
    case WithMana(v) => SetMedium(p, BitFields.Mana, v)
    case WithHealth(v) => SetMedium(p, BitFields.Health, v)
    case WithRespect(v) => SetSmall(p, BitFields.Respect, v)
    case WithStrength(v) => SetSmall(p, BitFields.Strength, v)
    case WithExperience(v) => SetSmall(p, BitFields.Experience, v)
    case WithLevel(v) => SetSmall(p, BitFields.Level, v)
    case WithHouse => Ok(p.(booleans := Flag(p.booleans, BitFields.HasHouse, true)))
    case WithGun => Ok(p.(booleans := Flag(p.booleans, BitFields.HasGun, true)))
    case WithFamily => Ok(p.(booleans := Flag(p.booleans, BitFields.HasFamily, true)))
    case WithType(t) => Ok(p.(booleans := StoreType(p.booleans, t)))
  }

  /** The options applied left to right, stopping at the first panic. */
  function ApplyAll(p: GamePerson, options: seq<PersonOption>): Result<GamePerson>
    decreases |options|
  {
    if options == [] then Ok(p)
    else
      match Apply(p, options[0])
      case Ok(q) => ApplyAll(q, options[1..])
      case Panic(msg) => Panic(msg)
  }

  /** NewGamePerson: a zero person with every option applied in order. */
  method NewGamePerson(options: seq<PersonOption>) returns (r: Result<GamePerson>)
    ensures r == ApplyAll(Zero(), options)
  {
    var gp := Zero();
    var i := 0;
    while i < |options|
      invariant 0 <= i <= |options|
      invariant ApplyAll(Zero(), options) == ApplyAll(gp, options[i..])
    {
      assert options[i..][1..] == options[i + 1..];
      var next := Apply(gp, options[i]);
      if next.Panic? {
        return Panic(next.message);
      }
      gp := next.value;
      i := i + 1;
    }
    return Ok(gp);
  }

  /** Name: the byte kept in the 10-bit field, truncated to a byte, then the 41 stored bytes. */
  function Name(p: GamePerson): (s: seq<byte>)
    ensures |s| == 42 && s[1..] == p.name
  {
    [MediumNumbersGet(p.mediumNumbers, FirsNameByte).value % 0x100] + p.name
  }

  /** X, Y, Z: the stored coordinates, each within the int32 range. */
  function X(p: GamePerson): (v: int)
    ensures -0x8000_0000 <= v < 0x8000_0000
  { p.x }

  function Y(p: GamePerson): (v: int)
    ensures -0x8000_0000 <= v < 0x8000_0000
  { p.y }

  function Z(p: GamePerson): (v: int)
    ensures -0x8000_0000 <= v < 0x8000_0000
  { p.z }

  /** Gold: the stored amount, within the uint32 range. */
  function Gold(p: GamePerson): (v: int)
    ensures 0 <= v < 0x1_0000_0000
  { p.gold }

  function Mana(p: GamePerson): (v: int)
    ensures 0 <= v < 1024
  {
    MediumNumbersGet(p.mediumNumbers, BitFields.Mana).value
  }

  function Health(p: GamePerson): (v: int)
    ensures 0 <= v < 1024
  {
    MediumNumbersGet(p.mediumNumbers, BitFields.Health).value
  }

  function Respect(p: GamePerson): (v: int)
    ensures 0 <= v < 16
  {
    SmallNumbersGet(p.smallNumbers, BitFields.Respect).value
  }

  function Strength(p: GamePerson): (v: int)
    ensures 0 <= v < 16
  {
    SmallNumbersGet(p.smallNumbers, BitFields.Strength).value
  }

  function Experience(p: GamePerson): (v: int)
    ensures 0 <= v < 16
  {
    SmallNumbersGet(p.smallNumbers, BitFields.Experience).value
  }

  function Level(p: GamePerson): (v: int)
    ensures 0 <= v < 16
  {
    SmallNumbersGet(p.smallNumbers, BitFields.Level).value
  }

  function HasHouse(p: GamePerson): (b: bool)
    ensures b <==> p.booleans & BitFields.HasHouse != 0
  {
    BooleansGet(p.booleans, BitFields.HasHouse).value
  }

  function HasGun(p: GamePerson): (b: bool)
    ensures b <==> p.booleans & BitFields.HasGun != 0
  {
    BooleansGet(p.booleans, BitFields.HasGun).value
  }

  function HasFamily(p: GamePerson): (b: bool)
    ensures b <==> p.booleans & BitFields.HasFamily != 0
  {
    BooleansGet(p.booleans, BitFields.HasFamily).value
  }

  /** Type: the first raised type flag in the order builder, blacksmith, warrior; builder when none is raised. */
  function Type(p: GamePerson): (t: int)
    ensures t == BuilderGamePersonType || t == BlacksmithGamePersonType || t == WarriorGamePersonType
  {
    if BooleansGet(p.booleans, IsBuilder).value then BuilderGamePersonType
    else if BooleansGet(p.booleans, IsBlacksmith).value then BlacksmithGamePersonType
    else if BooleansGet(p.booleans, IsWarrior).value then WarriorGamePersonType
    else BuilderGamePersonType
  }

  /** Everything the getters report about a person. */
  datatype View = View(
    name: seq<byte>,
    x: int, y: int, z: int,
    gold: int,
    mana: int, health: int,
    respect: int, strength: int, experience: int, level: int,
    hasHouse: bool, hasGun: bool, hasFamily: bool,
    personType: int)

  function Observe(p: GamePerson): (v: View)
    ensures |v.name| == 42
  {
    View(Name(p), X(p), Y(p), Z(p), Gold(p),
         Mana(p), Health(p),
         Respect(p), Strength(p), Experience(p), Level(p),
         HasHouse(p), HasGun(p), HasFamily(p),
         Type(p))
  }

  /**
   * What each admissible option does to the getters, stated without bits:
   * the name's first min(42, |name|) bytes come from the new name, numbers
   * read back as given (coordinates and gold after Go's conversions), a flag
   * option raises its flag, and WithType leaves exactly its type visible,
   * or the builder default for an unknown type.
   */
  function After(v: View, opt: PersonOption): View
    requires Admissible(opt)
  {
    match opt
    case WithName(name) =>
      var k := Min(42, |name|);
      v.(name := name[..k] + (if k <= |v.name| then v.name[k..] else []))
    case WithCoordinates(cx, cy, cz) => v.(x := ToInt32(cx), y := ToInt32(cy), z := ToInt32(cz))
    case WithGold(amount) => v.(gold := ToUint32(amount))
    case WithMana(m) => v.(mana := m)
    case WithHealth(h) => v.(health := h)
    case WithRespect(r) => v.(respect := r)
    case WithStrength(s) => v.(strength := s)
    case WithExperience(e) => v.(experience := e)
    case WithLevel(l) => v.(level := l)
    case WithHouse => v.(hasHouse := true)
    case WithGun => v.(hasGun := true)
    case WithFamily => v.(hasFamily := true)
    case WithType(t) =>
      v.(personType := if 0 <= t <= 2 then t else BuilderGamePersonType)
  }

  /** Every option, viewed through the getters, does what After says. */
  lemma ApplyObserved(p: GamePerson, opt: PersonOption)
    requires Admissible(opt)
    ensures Observe(Apply(p, opt).value) == After(Observe(p), opt)
  {
    match opt
    case WithName(name) => NameObserved(p, name);
    case WithCoordinates(_, _, _) => PlainObserved(p, opt);
    case WithGold(_) => PlainObserved(p, opt);
    case WithMana(_) => MediumOptionObserved(p, opt);
    case WithHealth(_) => MediumOptionObserved(p, opt);
    case WithRespect(_) => SmallOptionObserved(p, opt);
    case WithStrength(_) => SmallOptionObserved(p, opt);
    case WithExperience(_) => SmallOptionObserved(p, opt);
    case WithLevel(_) => SmallOptionObserved(p, opt);
    case WithHouse => FlagOptionObserved(p, opt);
    case WithGun => FlagOptionObserved(p, opt);
    case WithFamily => FlagOptionObserved(p, opt);
    case WithType(t) => TypeObserved(p, t);
  }

  /** The coordinate and gold options, which write plain fields. */
  lemma PlainObserved(p: GamePerson, opt: PersonOption)
    requires opt.WithCoordinates? || opt.WithGold?
    ensures Observe(Apply(p, opt).value) == After(Observe(p), opt)
  {
  }

  /** The mana and health options. */
  lemma MediumOptionObserved(p: GamePerson, opt: PersonOption)
    requires (opt.WithMana? && 0 <= opt.mana <= 1000) || (opt.WithHealth? && 0 <= opt.health <= 1000)
    ensures Observe(Apply(p, opt).value) == After(Observe(p), opt)
  {
    if opt.WithMana? {
      MediumObserved(p, BitFields.Mana, opt.mana);
    } else {
      MediumObserved(p, BitFields.Health, opt.health);
    }
  }

  /** The respect, strength, experience and level options. */
  lemma SmallOptionObserved(p: GamePerson, opt: PersonOption)
    requires || (opt.WithRespect? && 0 <= opt.respect <= 10)
             || (opt.WithStrength? && 0 <= opt.strength <= 10)
             || (opt.WithExperience? && 0 <= opt.experience <= 10)
             || (opt.WithLevel? && 0 <= opt.level <= 10)
    ensures Observe(Apply(p, opt).value) == After(Observe(p), opt)
  {
    match opt
    case WithRespect(v) => SmallObserved(p, BitFields.Respect, v);
    case WithStrength(v) => SmallObserved(p, BitFields.Strength, v);
    case WithExperience(v) => SmallObserved(p, BitFields.Experience, v);
    case WithLevel(v) => SmallObserved(p, BitFields.Level, v);
  }

  /** The house, gun and family options. */
  lemma FlagOptionObserved(p: GamePerson, opt: PersonOption)
    requires opt.WithHouse? || opt.WithGun? || opt.WithFamily?
    ensures Observe(Apply(p, opt).value) == After(Observe(p), opt)
  {
    match opt
    case WithHouse => FlagObserved(p, BitFields.HasHouse);
    case WithGun => FlagObserved(p, BitFields.HasGun);
    case WithFamily => FlagObserved(p, BitFields.HasFamily);
  }

  /** WithName: the first byte goes to the 10-bit field, the next ones to the tail. */
  lemma NameObserved(p: GamePerson, name: seq<byte>)
    requires |name| > 0
    ensures Observe(Apply(p, WithName(name)).value) == After(Observe(p), WithName(name))
  {
    StoredNameReadsBack(p, name);
    StoreNameKeepsAttributes(p, name);
  }

  /** After StoreName, Name reports the first min(42, |name|) bytes of name and then the old bytes. */
  lemma StoredNameReadsBack(p: GamePerson, name: seq<byte>)
    requires |name| > 0
    ensures var k := Min(42, |name|); Name(StoreName(p, name)) == name[..k] + Name(p)[k..]
  {
    var q := StoreName(p, name);
    MediumNumbersRoundTrip(p.mediumNumbers, FirsNameByte, name[0]);
    assert Name(q)[0] == name[0];
    var k := Min(42, |name|);
    var expected := name[..k] + Name(p)[k..];
    forall i | 1 <= i < 42
      ensures Name(q)[i] == expected[i]
    {
      assert Name(q)[i] == q.name[i - 1];
    }
    assert Name(q) == expected;
  }

  /** StoreName leaves the mana and health fields of the shared 10-bit word alone. */
  lemma StoreNameKeepsAttributes(p: GamePerson, name: seq<byte>)
    requires |name| > 0
    ensures Mana(StoreName(p, name)) == Mana(p) && Health(StoreName(p, name)) == Health(p)
  {
    MediumNumbersFrame(p.mediumNumbers, FirsNameByte, BitFields.Mana, name[0]);
    MediumNumbersFrame(p.mediumNumbers, FirsNameByte, BitFields.Health, name[0]);
  }

  /** Storing a 10-bit attribute changes that getter alone. */
  lemma MediumObserved(p: GamePerson, index: MediumNumber, v: int)
    requires (index == BitFields.Mana || index == BitFields.Health) && 0 <= v <= 1000
    ensures SetMedium(p, index, v).Ok?
    ensures
      var o, o' := Observe(p), Observe(SetMedium(p, index, v).value);
      && o'.mana == (if index == BitFields.Mana then v else o.mana)
      && o'.health == (if index == BitFields.Health then v else o.health)
      && o'.name == o.name
      && o' == o.(mana := o'.mana, health := o'.health)
  {
    var q := SetMedium(p, index, v).value;
    MediumNumbersRoundTrip(p.mediumNumbers, index, v);
    MediumNumbersFrame(p.mediumNumbers, index, FirsNameByte, v);
    if index == BitFields.Mana {
      MediumNumbersFrame(p.mediumNumbers, index, BitFields.Health, v);
    } else {
      MediumNumbersFrame(p.mediumNumbers, index, BitFields.Mana, v);
    }
    assert Name(q) == Name(p);
  }

  /** Storing a 4-bit attribute changes that getter alone. */
  lemma SmallObserved(p: GamePerson, index: SmallNumber, v: int)
    requires SmallNumberIsValid(index) && 0 <= v <= 10
    ensures SetSmall(p, index, v).Ok?
    ensures Respect(SetSmall(p, index, v).value) == if index == BitFields.Respect then v else Respect(p)
    ensures Strength(SetSmall(p, index, v).value) == if index == BitFields.Strength then v else Strength(p)
    ensures Experience(SetSmall(p, index, v).value) == if index == BitFields.Experience then v else Experience(p)
    ensures Level(SetSmall(p, index, v).value) == if index == BitFields.Level then v else Level(p)
  {
    var w := p.smallNumbers;
    SmallNumbersRoundTrip(w, index, v);
    if index != BitFields.Respect {
      SmallNumbersFrame(w, index, BitFields.Respect, v);
    }
    if index != BitFields.Strength {
      SmallNumbersFrame(w, index, BitFields.Strength, v);
    }
    if index != BitFields.Experience {
      SmallNumbersFrame(w, index, BitFields.Experience, v);
    }
    if index != BitFields.Level {
      SmallNumbersFrame(w, index, BitFields.Level, v);
    }
  }

  /** Raising one of the three ownership flags changes that getter alone. */
  lemma FlagObserved(p: GamePerson, flag: Boolean)
    requires flag == BitFields.HasHouse || flag == BitFields.HasGun || flag == BitFields.HasFamily
    ensures
      var o, o' := Observe(p), Observe(p.(booleans := Flag(p.booleans, flag, true)));
      && o'.hasHouse == (flag == BitFields.HasHouse || o.hasHouse)
      && o'.hasGun == (flag == BitFields.HasGun || o.hasGun)
      && o'.hasFamily == (flag == BitFields.HasFamily || o.hasFamily)
      && o' == o.(hasHouse := o'.hasHouse, hasGun := o'.hasGun, hasFamily := o'.hasFamily)
  {
    BooleansRoundTrip(p.booleans, flag, true);
    forall j | BooleanIsValid(j) && j != flag
      ensures BooleansGet(Flag(p.booleans, flag, true), j) == BooleansGet(p.booleans, j)
    {
      BooleansFrame(p.booleans, flag, j, true);
    }
  }

  /** WithType leaves the ownership flags alone and makes Type report the chosen type. */
  lemma TypeObserved(p: GamePerson, t: int)
    ensures Observe(Apply(p, WithType(t)).value) == After(Observe(p), WithType(t))
  {
    TypeFlagsCleared(p.booleans);
    TypeFlagRaised(p.booleans, t);
  }

  /** Clearing the three type flags lowers them all and keeps the ownership flags. */
  lemma TypeFlagsCleared(b: Booleans)
    ensures var c := Flag(Flag(Flag(b, IsBlacksmith, false), IsWarrior, false), IsBuilder, false);
      && !BooleansGet(c, IsBuilder).value
      && !BooleansGet(c, IsBlacksmith).value
      && !BooleansGet(c, IsWarrior).value
      && BooleansGet(c, BitFields.HasHouse) == BooleansGet(b, BitFields.HasHouse)
      && BooleansGet(c, BitFields.HasGun) == BooleansGet(b, BitFields.HasGun)
      && BooleansGet(c, BitFields.HasFamily) == BooleansGet(b, BitFields.HasFamily)
  {
    var b1 := Flag(b, IsBlacksmith, false);
    var b2 := Flag(b1, IsWarrior, false);
    FlagsKept(b, IsBlacksmith, false);
    FlagsKept(b1, IsWarrior, false);
    FlagsKept(b2, IsBuilder, false);
    BooleansRoundTrip(b, IsBlacksmith, false);
    BooleansFrame(b1, IsWarrior, IsBlacksmith, false);
    BooleansFrame(b2, IsBuilder, IsBlacksmith, false);
    BooleansRoundTrip(b1, IsWarrior, false);
    BooleansFrame(b2, IsBuilder, IsWarrior, false);
    BooleansRoundTrip(b2, IsBuilder, false);
  }

  /** After StoreType, exactly the chosen type's flag is raised and the ownership flags are as before. */
  lemma TypeFlagRaised(b: Booleans, t: int)
    requires var c := Flag(Flag(Flag(b, IsBlacksmith, false), IsWarrior, false), IsBuilder, false);
      && !BooleansGet(c, IsBuilder).value && !BooleansGet(c, IsBlacksmith).value && !BooleansGet(c, IsWarrior).value
      && BooleansGet(c, BitFields.HasHouse) == BooleansGet(b, BitFields.HasHouse)
      && BooleansGet(c, BitFields.HasGun) == BooleansGet(b, BitFields.HasGun)
      && BooleansGet(c, BitFields.HasFamily) == BooleansGet(b, BitFields.HasFamily)
    ensures var s := StoreType(b, t);
      && BooleansGet(s, IsBuilder).value == (t == BuilderGamePersonType)
      && BooleansGet(s, IsBlacksmith).value == (t == BlacksmithGamePersonType)
      && BooleansGet(s, IsWarrior).value == (t == WarriorGamePersonType)
      && BooleansGet(s, BitFields.HasHouse) == BooleansGet(b, BitFields.HasHouse)
      && BooleansGet(s, BitFields.HasGun) == BooleansGet(b, BitFields.HasGun)
      && BooleansGet(s, BitFields.HasFamily) == BooleansGet(b, BitFields.HasFamily)
  {
    var c := Flag(Flag(Flag(b, IsBlacksmith, false), IsWarrior, false), IsBuilder, false);
    if t == BuilderGamePersonType {
      BooleansRoundTrip(c, IsBuilder, true);
      BooleansFrame(c, IsBuilder, IsBlacksmith, true);
      BooleansFrame(c, IsBuilder, IsWarrior, true);
      FlagsKept(c, IsBuilder, true);
    } else if t == BlacksmithGamePersonType {
      BooleansRoundTrip(c, IsBlacksmith, true);
      BooleansFrame(c, IsBlacksmith, IsBuilder, true);
      BooleansFrame(c, IsBlacksmith, IsWarrior, true);
      FlagsKept(c, IsBlacksmith, true);
    } else if t == WarriorGamePersonType {
      BooleansRoundTrip(c, IsWarrior, true);
      BooleansFrame(c, IsWarrior, IsBuilder, true);
      BooleansFrame(c, IsWarrior, IsBlacksmith, true);
      FlagsKept(c, IsWarrior, true);
    }
  }

  /** Setting a type flag leaves the three ownership flags reading as before. */
  lemma FlagsKept(b: Booleans, flag: Boolean, value: bool)
    requires flag == IsBuilder || flag == IsBlacksmith || flag == IsWarrior
    ensures BooleansGet(Flag(b, flag, value), BitFields.HasHouse) == BooleansGet(b, BitFields.HasHouse)
    ensures BooleansGet(Flag(b, flag, value), BitFields.HasGun) == BooleansGet(b, BitFields.HasGun)
    ensures BooleansGet(Flag(b, flag, value), BitFields.HasFamily) == BooleansGet(b, BitFields.HasFamily)
  {
    BooleansFrame(b, flag, BitFields.HasHouse, value);
    BooleansFrame(b, flag, BitFields.HasGun, value);
    BooleansFrame(b, flag, BitFields.HasFamily, value);
  }

  /** The views through a list of admissible options, applied left to right. */
  function AfterAll(v: View, options: seq<PersonOption>): View
    requires forall i :: 0 <= i < |options| ==> Admissible(options[i])
    decreases |options|
  {
    if options == [] then v else AfterAll(After(v, options[0]), options[1..])
  }

  /**
   * A list of options succeeds exactly when each of them is admissible, and
   * then the getters report what the options say, in order.
   */
  lemma {:induction false} ApplyAllObserved(p: GamePerson, options: seq<PersonOption>)
    ensures ApplyAll(p, options).Ok? <==> forall i :: 0 <= i < |options| ==> Admissible(options[i])
    ensures ApplyAll(p, options).Ok? ==> Observe(ApplyAll(p, options).value) == AfterAll(Observe(p), options)
    decreases |options|
  {
    if options != [] {
      var r := Apply(p, options[0]);
      if r.Ok? {
        ApplyObserved(p, options[0]);
        ApplyAllObserved(r.value, options[1..]);
        assert forall i :: 1 <= i < |options| ==> options[i] == options[1..][i - 1];
      }
    }
  }

  /** A 42-byte name reads back whole. */
  lemma NameRoundTrip(p: GamePerson, name: seq<byte>)
    requires |name| == 42
    ensures Name(Apply(p, WithName(name)).value) == name
  {
    NameObserved(p, name);
  }

  /** Coordinates inside the int32 range read back unchanged. */
  lemma CoordinatesRoundTrip(p: GamePerson, cx: int, cy: int, cz: int)
    requires -0x8000_0000 <= cx < 0x8000_0000
    requires -0x8000_0000 <= cy < 0x8000_0000
    requires -0x8000_0000 <= cz < 0x8000_0000
    ensures var q := Apply(p, WithCoordinates(cx, cy, cz)).value; X(q) == cx && Y(q) == cy && Z(q) == cz
  {
  }

  /** The options of TestGamePerson, with its name as bytes. */
  function TestOptions(name: seq<byte>): seq<PersonOption>
  {
    [WithName(name),
     WithCoordinates(-0x8000_0000, 0x7FFF_FFFF, 0),
     WithGold(0x7FFF_FFFF),
     WithMana(1000), WithHealth(1000),
     WithRespect(10), WithStrength(10), WithExperience(10), WithLevel(10),
     WithHouse, WithFamily,
     WithType(BuilderGamePersonType)]
  }

  /** One step of AfterAll from the i-th option on. */
  lemma AfterAllStep(v: View, options: seq<PersonOption>, i: nat)
    requires i < |options| && forall j :: 0 <= j < |options| ==> Admissible(options[j])
    ensures AfterAll(v, options[i..]) == AfterAll(After(v, options[i]), options[i + 1..])
  {
    assert options[i..][1..] == options[i + 1..];
  }

  /** The test's options are all admissible. */
  lemma TestOptionsAdmissible(name: seq<byte>)
    requires |name| == 42
    ensures forall i :: 0 <= i < |TestOptions(name)| ==> Admissible(TestOptions(name)[i])
  {
  }

  /** Options 0 to 2 of the test, viewed through the getters. */
  lemma TestOptionsSteps0(name: seq<byte>)
    requires |name| == 42
    ensures forall i :: 0 <= i < |TestOptions(name)| ==> Admissible(TestOptions(name)[i])
    ensures AfterAll(View(seq(42, _ => 0), 0, 0, 0, 0, 0, 0, 0, 0, 0, 0, false, false, false, BuilderGamePersonType), TestOptions(name)[0..]) ==
            AfterAll(View(name, -0x8000_0000, 0x7FFF_FFFF, 0, 0x7FFF_FFFF, 0, 0, 0, 0, 0, 0, false, false, false, BuilderGamePersonType), TestOptions(name)[3..])
  {
    var o := TestOptions(name);
    TestOptionsAdmissible(name);
    assert name[..42] == name;
    var v := View(seq(42, _ => 0), 0, 0, 0, 0, 0, 0, 0, 0, 0, 0, false, false, false, BuilderGamePersonType);
    AfterAllStep(v, o, 0);
    v := After(v, WithName(name));
    assert v == View(name, 0, 0, 0, 0, 0, 0, 0, 0, 0, 0, false, false, false, BuilderGamePersonType);
    AfterAllStep(v, o, 1);
    v := After(v, WithCoordinates(-0x8000_0000, 0x7FFF_FFFF, 0));
    assert v == View(name, -0x8000_0000, 0x7FFF_FFFF, 0, 0, 0, 0, 0, 0, 0, 0, false, false, false, BuilderGamePersonType);
    AfterAllStep(v, o, 2);
    v := After(v, WithGold(0x7FFF_FFFF));
    assert v == View(name, -0x8000_0000, 0x7FFF_FFFF, 0, 0x7FFF_FFFF, 0, 0, 0, 0, 0, 0, false, false, false, BuilderGamePersonType);
  }

  /** Options 3 to 5 of the test, viewed through the getters. */
  lemma TestOptionsSteps3(name: seq<byte>)
    requires |name| == 42
    ensures forall i :: 0 <= i < |TestOptions(name)| ==> Admissible(TestOptions(name)[i])
    ensures AfterAll(View(name, -0x8000_0000, 0x7FFF_FFFF, 0, 0x7FFF_FFFF, 0, 0, 0, 0, 0, 0, false, false, false, BuilderGamePersonType), TestOptions(name)[3..]) ==
            AfterAll(View(name, -0x8000_0000, 0x7FFF_FFFF, 0, 0x7FFF_FFFF, 1000, 1000, 10, 0, 0, 0, false, false, false, BuilderGamePersonType), TestOptions(name)[6..])
  {
    var o := TestOptions(name);
    TestOptionsAdmissible(name);
    var v := View(name, -0x8000_0000, 0x7FFF_FFFF, 0, 0x7FFF_FFFF, 0, 0, 0, 0, 0, 0, false, false, false, BuilderGamePersonType);
    AfterAllStep(v, o, 3);
    v := After(v, WithMana(1000));
    assert v == View(name, -0x8000_0000, 0x7FFF_FFFF, 0, 0x7FFF_FFFF, 1000, 0, 0, 0, 0, 0, false, false, false, BuilderGamePersonType);
    AfterAllStep(v, o, 4);
    v := After(v, WithHealth(1000));
    assert v == View(name, -0x8000_0000, 0x7FFF_FFFF, 0, 0x7FFF_FFFF, 1000, 1000, 0, 0, 0, 0, false, false, false, BuilderGamePersonType);
    AfterAllStep(v, o, 5);
    v := After(v, WithRespect(10));
    assert v == View(name, -0x8000_0000, 0x7FFF_FFFF, 0, 0x7FFF_FFFF, 1000, 1000, 10, 0, 0, 0, false, false, false, BuilderGamePersonType);
  }

  /** Options 6 to 8 of the test, viewed through the getters. */
  lemma TestOptionsSteps6(name: seq<byte>)
    requires |name| == 42
    ensures forall i :: 0 <= i < |TestOptions(name)| ==> Admissible(TestOptions(name)[i])
    ensures AfterAll(View(name, -0x8000_0000, 0x7FFF_FFFF, 0, 0x7FFF_FFFF, 1000, 1000, 10, 0, 0, 0, false, false, false, BuilderGamePersonType), TestOptions(name)[6..]) ==
            AfterAll(View(name, -0x8000_0000, 0x7FFF_FFFF, 0, 0x7FFF_FFFF, 1000, 1000, 10, 10, 10, 10, false, false, false, BuilderGamePersonType), TestOptions(name)[9..])
  {
    var o := TestOptions(name);
    TestOptionsAdmissible(name);
    var v := View(name, -0x8000_0000, 0x7FFF_FFFF, 0, 0x7FFF_FFFF, 1000, 1000, 10, 0, 0, 0, false, false, false, BuilderGamePersonType);
    AfterAllStep(v, o, 6);
    v := After(v, WithStrength(10));
    assert v == View(name, -0x8000_0000, 0x7FFF_FFFF, 0, 0x7FFF_FFFF, 1000, 1000, 10, 10, 0, 0, false, false, false, BuilderGamePersonType);
    AfterAllStep(v, o, 7);
    v := After(v, WithExperience(10));
    assert v == View(name, -0x8000_0000, 0x7FFF_FFFF, 0, 0x7FFF_FFFF, 1000, 1000, 10, 10, 10, 0, false, false, false, BuilderGamePersonType);
    AfterAllStep(v, o, 8);
    v := After(v, WithLevel(10));
    assert v == View(name, -0x8000_0000, 0x7FFF_FFFF, 0, 0x7FFF_FFFF, 1000, 1000, 10, 10, 10, 10, false, false, false, BuilderGamePersonType);
  }

  /** Options 9 to 11 of the test, viewed through the getters. */
  lemma TestOptionsSteps9(name: seq<byte>)
    requires |name| == 42
    ensures forall i :: 0 <= i < |TestOptions(name)| ==> Admissible(TestOptions(name)[i])
    ensures AfterAll(View(name, -0x8000_0000, 0x7FFF_FFFF, 0, 0x7FFF_FFFF, 1000, 1000, 10, 10, 10, 10, false, false, false, BuilderGamePersonType), TestOptions(name)[9..]) ==
            AfterAll(View(name, -0x8000_0000, 0x7FFF_FFFF, 0, 0x7FFF_FFFF, 1000, 1000, 10, 10, 10, 10, true, false, true, BuilderGamePersonType), TestOptions(name)[12..])
  {
    var o := TestOptions(name);
    TestOptionsAdmissible(name);
    var v := View(name, -0x8000_0000, 0x7FFF_FFFF, 0, 0x7FFF_FFFF, 1000, 1000, 10, 10, 10, 10, false, false, false, BuilderGamePersonType);
    AfterAllStep(v, o, 9);
    v := After(v, WithHouse);
    assert v == View(name, -0x8000_0000, 0x7FFF_FFFF, 0, 0x7FFF_FFFF, 1000, 1000, 10, 10, 10, 10, true, false, false, BuilderGamePersonType);
    AfterAllStep(v, o, 10);
    v := After(v, WithFamily);
    assert v == View(name, -0x8000_0000, 0x7FFF_FFFF, 0, 0x7FFF_FFFF, 1000, 1000, 10, 10, 10, 10, true, false, true, BuilderGamePersonType);
    AfterAllStep(v, o, 11);
    v := After(v, WithType(BuilderGamePersonType));
    assert v == View(name, -0x8000_0000, 0x7FFF_FFFF, 0, 0x7FFF_FFFF, 1000, 1000, 10, 10, 10, 10, true, false, true, BuilderGamePersonType);
  }

  /** The getters' view after the test's options, starting from the zero view. */
  lemma TestOptionsObserved(name: seq<byte>)
    requires |name| == 42
    ensures forall i :: 0 <= i < |TestOptions(name)| ==> Admissible(TestOptions(name)[i])
    ensures AfterAll(Observe(Zero()), TestOptions(name)) == View(name, -0x8000_0000, 0x7FFF_FFFF, 0, 0x7FFF_FFFF, 1000, 1000, 10, 10, 10, 10, true, false, true, BuilderGamePersonType)
  {
    ZeroObserved();
    assert TestOptions(name)[0..] == TestOptions(name);
    TestOptionsSteps0(name);
    TestOptionsSteps3(name);
    TestOptionsSteps6(name);
    TestOptionsSteps9(name);
    assert TestOptions(name)[12..] == [];
  }

  /**
   * TestGamePerson: built from these options, the person reports the 42-byte
   * name, the extreme coordinates, the gold, full attributes, a house and a
   * family but no gun, and the builder type.
   */
  method ScenarioGamePerson(name: seq<byte>) returns (person: GamePerson)
    requires |name| == 42
    ensures Observe(person) ==
      View(name, -0x8000_0000, 0x7FFF_FFFF, 0, 0x7FFF_FFFF, 1000, 1000, 10, 10, 10, 10,
           true, false, true, BuilderGamePersonType)
  {
    var options := TestOptions(name);
    var r := NewGamePerson(options);
    ApplyAllObserved(Zero(), options);
    TestOptionsObserved(name);
    person := r.value;
  }

  /** The zero value reports an all-zero name, zero numbers, no flags and the builder type. */
  lemma ZeroObserved()
    ensures Observe(Zero()) == View(seq(42, _ => 0), 0, 0, 0, 0, 0, 0, 0, 0, 0, 0, false, false, false, BuilderGamePersonType)
  {
  }
}
