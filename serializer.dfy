/**
 * The generics-and-reflection exercise: Serialize writes a struct as
 * "key=value" lines, one per field that carries a `properties` tag.  The tag
 * names the key and may add omitempty, which drops the field when its value
 * formats as the empty string.
 *
 * Reflection is replaced by its results: a struct is the list of its fields,
 * each with the `properties` tag if it has one and its value already
 * formatted by %v; any other input is only the name of its kind.
 */
module Serializer {
  import opened Wrappers
  import opened Decimal

  datatype Field = Field(tag: Option<string>, value: string)

  datatype Input = Struct(fields: seq<Field>) | Other(kind: string)

  /** What one field contributes: nothing, or a key and its value. */
  datatype Outcome = Skip | Emit(key: string, value: string)

  const Omitempty: string := "omitempty"

  /** strings.Split(s, sep) for a one-character separator: the pieces between separators. */
  function Split(s: string, sep: char): (parts: seq<string>)
    ensures |parts| >= 1
    decreases |s|
  {
    if s == [] then [""]
    else
      var rest := Split(s[1..], sep);
      if s[0] == sep then [""] + rest else [[s[0]] + rest[0]] + rest[1..]
  }

  /** The pieces put back together with the separator between neighbours. */
  function Join(parts: seq<string>, sep: char): string
    requires |parts| >= 1
    decreases |parts|
  {
    if |parts| == 1 then parts[0] else parts[0] + [sep] + Join(parts[1..], sep)
  }

  /** Splitting loses nothing: the pieces join back into the string. */
  lemma {:induction false} JoinSplit(s: string, sep: char)
    ensures Join(Split(s, sep), sep) == s
    decreases |s|
  {
    if s != [] {
      var rest := Split(s[1..], sep);
      JoinSplit(s[1..], sep);
      if s[0] == sep {
        JoinEmptyFirst(rest, sep);
      } else {
        JoinExtendFirst(s[0], rest, sep);
      }
      assert s == [s[0]] + s[1..];
    }
  }

  /** An empty first piece joins to a leading separator. */
  lemma JoinEmptyFirst(parts: seq<string>, sep: char)
    requires |parts| >= 1
    ensures Join([""] + parts, sep) == [sep] + Join(parts, sep)
  {
    assert ([""] + parts)[1..] == parts;
  }

  /** A character added to the first piece comes first in the join. */
  lemma JoinExtendFirst(c: char, parts: seq<string>, sep: char)
    requires |parts| >= 1
    ensures Join([[c] + parts[0]] + parts[1..], sep) == [c] + Join(parts, sep)
  {
    var q := [[c] + parts[0]] + parts[1..];
    if |parts| > 1 {
      assert q[1..] == parts[1..];
    }
  }

  /** A string without the separator is a single piece. */
  lemma {:induction false} SplitWhole(s: string, sep: char)
    requires sep !in s
    ensures Split(s, sep) == [s]
    decreases |s|
  {
    if s != [] {
      assert s[0] != sep;
      assert forall c :: c in s[1..] ==> c in s;
      SplitWhole(s[1..], sep);
      assert s == [s[0]] + s[1..];
    }
  }

  /** A piece without the separator, then the separator, then the rest. */
  lemma {:induction false} SplitFirst(a: string, sep: char, t: string)
    requires sep !in a
    ensures Split(a + [sep] + t, sep) == [a] + Split(t, sep)
    decreases |a|
  {
    var s := a + [sep] + t;
    if a == [] {
      assert s[1..] == t;
    } else {
      assert s[1..] == a[1..] + [sep] + t;
      assert forall c :: c in a[1..] ==> c in a;
      SplitFirst(a[1..], sep, t);
      assert [a[0]] + a[1..] == a;
    }
  }

  /** Pieces free of the separator are recovered exactly by splitting their join. */
  lemma {:induction false} SplitJoin(parts: seq<string>, sep: char)
    requires |parts| >= 1 && forall i :: 0 <= i < |parts| ==> sep !in parts[i]
    ensures Split(Join(parts, sep), sep) == parts
    decreases |parts|
  {
    if |parts| == 1 {
      SplitWhole(parts[0], sep);
    } else {
      SplitJoin(parts[1..], sep);
      SplitFirst(parts[0], sep, Join(parts[1..], sep));
    }
  }

  /** The characters %q escapes inside the quotes. */
  function Escaped(s: string): string
  {
    if s == [] then ""
    else
      var c := s[0];
      (if c == '"' then "\\\"" else if c == '\\' then "\\\\" else if c == '\n' then "\\n"
       else if c == '\t' then "\\t" else [c]) + Escaped(s[1..])
  }

  /** %q: the string in double quotes with quotes, backslashes, newlines and tabs escaped. */
  function Quote(s: string): (q: string)
    ensures |q| >= 2 && q[0] == '"' && q[|q| - 1] == '"'
  {
    "\"" + Escaped(s) + "\""
  }

  /**
   * parseProp: no comma gives the whole tag and no omitempty; otherwise
   * omitempty as the first or second piece gives the other of the two; any
   * other tag panics.
   */
  function ParseProp(prop: string): (r: Result<(string, bool)>)
    ensures r.Ok? && !r.value.1 <==> ',' !in prop
    ensures ',' !in prop ==> r == Ok((prop, false))
    ensures r.Panic? ==> r.message == "unknown property " + Quote(prop)
  {
    var parts := Split(prop, ',');
    if |parts| < 2 then
      SplitWholeIff(prop);
      Ok((prop, false))
    else
      SplitWholeIff(prop);
      if parts[0] == Omitempty then Ok((parts[1], true))
      else if parts[1] == Omitempty then Ok((parts[0], true))
      else Panic("unknown property " + Quote(prop))
  }

  /** A string splits into one piece exactly when it holds no comma. */
  lemma SplitWholeIff(s: string)
    ensures |Split(s, ',')| < 2 <==> ',' !in s
  {
    if ',' in s {
      PiecesHaveNoSeparator(s, ',');
      JoinSplit(s, ',');
    } else {
      SplitWhole(s, ',');
    }
  }

  /** Every piece of a split is free of the separator. */
  lemma {:induction false} PiecesHaveNoSeparator(s: string, sep: char)
    ensures forall i :: 0 <= i < |Split(s, sep)| ==> sep !in Split(s, sep)[i]
    decreases |s|
  {
    if s != [] {
      PiecesHaveNoSeparator(s[1..], sep);
    }
  }

  /** A tag of one key with omitempty after it. */
  lemma ParsePropKeyThenOmitempty(key: string)
    requires ',' !in key
    ensures ParseProp(key + "," + Omitempty) == Ok((key, true))
  {
    SplitJoin([key, Omitempty], ',');
    assert Join([key, Omitempty], ',') == key + "," + Omitempty;
  }

  /** A tag of omitempty with one key after it. */
  lemma ParsePropOmitemptyThenKey(key: string)
    requires ',' !in key
    ensures ParseProp(Omitempty + "," + key) == Ok((key, true))
  {
    SplitJoin([Omitempty, key], ',');
    assert Join([Omitempty, key], ',') == Omitempty + "," + key;
  }

  /** Two pieces of which neither is omitempty panic. */
  lemma ParsePropUnknown(a: string, b: string)
    requires ',' !in a && ',' !in b && a != Omitempty && b != Omitempty
    ensures ParseProp(a + "," + b) == Panic("unknown property " + Quote(a + "," + b))
  {
    SplitJoin([a, b], ',');
    assert Join([a, b], ',') == a + "," + b;
  }

  /** Pieces after the second are ignored: only the first two decide the outcome. */
  lemma ParsePropFirstTwoDecide(a: string, b: string, rest: string)
    requires ',' !in a && ',' !in b
    ensures ParseProp(a + "," + b + "," + rest) ==
      if a == Omitempty then Ok((b, true))
      else if b == Omitempty then Ok((a, true))
      else Panic("unknown property " + Quote(a + "," + b + "," + rest))
  {
    SplitFirst(b, ',', rest);
    SplitFirst(a, ',', b + "," + rest);
    assert a + "," + b + "," + rest == a + [','] + (b + [','] + rest);
  }

  /** What one field contributes: untagged fields and empty omitempty fields are skipped. */
  function FieldOutcome(f: Field): (r: Result<Outcome>)
    ensures f.tag.None? ==> r == Ok(Skip)
    ensures f.tag.Some? && ParseProp(f.tag.value).Panic? ==> r.Panic?
  {
    match f.tag
    case None => Ok(Skip)
    case Some(prop) =>
      match ParseProp(prop)
      case Panic(m) => Panic(m)
      case Ok((key, omitempty)) =>
        if omitempty && f.value == "" then Ok(Skip) else Ok(Emit(key, f.value))
  }

  /** The "key=value" line of an emitted field. */
  function Line(key: string, value: string): string
  {
    key + "=" + value
  }

  /**
   * The text written for the first k fields as the code has it: every
   * emitted line is followed by a newline unless its field is the struct's
   * last one, whether or not the last field is emitted.
   */
  function WrittenUpTo(fields: seq<Field>, k: nat): Result<string>
    requires k <= |fields|
  {
    if k == 0 then Ok("")
    else
      match WrittenUpTo(fields, k - 1)
      case Panic(m) => Panic(m)
      case Ok(prefix) =>
        match FieldOutcome(fields[k - 1])
        case Panic(m) => Panic(m)
        case Ok(Skip) => Ok(prefix)
        case Ok(Emit(key, value)) =>
          Ok(prefix + Line(key, value) + if k - 1 != |fields| - 1 then "\n" else "")
  }

  /** Serialize as written. */
  function SerializedAsWritten(input: Input): Result<string>
  {
    match input
    case Other(kind) => Panic("expected struct type, actual: " + kind)
    case Struct(fields) => WrittenUpTo(fields, |fields|)
  }

  /** The lines of the emitted fields among the first k, in field order. */
  function LinesUpTo(fields: seq<Field>, k: nat): Result<seq<string>>
    requires k <= |fields|
  {
    if k == 0 then Ok([])
    else
      match LinesUpTo(fields, k - 1)
      case Panic(m) => Panic(m)
      case Ok(lines) =>
        match FieldOutcome(fields[k - 1])
        case Panic(m) => Panic(m)
        case Ok(Skip) => Ok(lines)
        case Ok(Emit(key, value)) => Ok(lines + [Line(key, value)])
  }

  /** The lines with a newline between neighbours, and nothing for no lines. */
  function JoinLines(lines: seq<string>): string
  {
    if lines == [] then "" else Join(lines, '\n')
  }

  /** Serialize as intended: the emitted lines separated by newlines, with no newline at the end. */
  function Serialized(input: Input): Result<string>
  {
    match input
    case Other(kind) => Panic("expected struct type, actual: " + kind)
    case Struct(fields) =>
      match LinesUpTo(fields, |fields|)
      case Panic(m) => Panic(m)
      case Ok(lines) => Ok(JoinLines(lines))
  }

  /**
   * Serialize: the loop over the fields writing into a builder.  Its output
   * is the intended one unless the struct ends with a skipped field.
   */
  method Serialize(input: Input) returns (r: Result<string>)
    ensures r == SerializedAsWritten(input)
    ensures !(input.Struct? && EndsWithSkip(input.fields)) ==> r == Serialized(input)
  {
    if input.Other? {
      return Panic("expected struct type, actual: " + input.kind);
    }
    var fields := input.fields;
    if !EndsWithSkip(fields) {
      AsWrittenWhenIntended(input);
    }
    var fieldsCount := |fields|;
    var bf := "";
    var i := 0;
    while i < fieldsCount
      invariant 0 <= i <= fieldsCount
      invariant WrittenUpTo(fields, i) == Ok(bf)
    {
      ghost var old_bf := bf;
      var outcome := FieldOutcome(fields[i]);
      if outcome.Panic? {
        PanicPersists(fields, i + 1, outcome.message);
        return Panic(outcome.message);
      }
      if outcome.value.Emit? {
        ghost var line := Line(outcome.value.key, outcome.value.value);
        bf := bf + outcome.value.key;
        bf := bf + "=";
        bf := bf + outcome.value.value;
        assert bf == old_bf + line;
        if i != fieldsCount - 1 {
          bf := bf + "\n";
        } else {
          assert bf == old_bf + line + "";
        }
      }
      i := i + 1;
    }
    return Ok(bf);
  }

  /** Unless the struct ends with a skipped field, the code's output is the intended one. */
  lemma AsWrittenWhenIntended(input: Input)
    requires input.Struct? ==> !EndsWithSkip(input.fields)
    ensures SerializedAsWritten(input) == Serialized(input)
  {
    if input.Struct? {
      WrittenVersusIntended(input.fields);
      if Serialized(input).Ok? {
        ghost var text := Serialized(input).value;
        assert text + "" == text;
      }
    }
  }

  /** Once a field has panicked, the whole serialization panics with its message. */
  lemma {:induction false} PanicPersists(fields: seq<Field>, k: nat, m: string)
    requires 0 < k <= |fields| && WrittenUpTo(fields, k) == Panic(m)
    ensures WrittenUpTo(fields, |fields|) == Panic(m)
    decreases |fields| - k
  {
    if k < |fields| {
      PanicPersists(fields, k + 1, m);
    }
  }

  /** Every line followed by a newline. */
  function Terminated(lines: seq<string>): string
  {
    if lines == [] then "" else Terminated(lines[..|lines| - 1]) + lines[|lines| - 1] + "\n"
  }

  /** Terminating every line is joining them and adding one final newline. */
  lemma {:induction false} TerminatedJoin(lines: seq<string>)
    requires lines != []
    ensures Terminated(lines) == Join(lines, '\n') + "\n"
    decreases |lines|
  {
    var init, last := lines[..|lines| - 1], lines[|lines| - 1];
    if init != [] {
      calc {
        Terminated(lines);
        Terminated(init) + last + "\n";
        { TerminatedJoin(init); }
        Join(init, '\n') + "\n" + last + "\n";
        { JoinSnoc(init, last); assert init + [last] == lines; }
        Join(lines, '\n') + "\n";
      }
    } else {
      assert |lines| == 1;
    }
  }

  /** Terminated lines followed by one more line join all of them. */
  lemma TerminatedThen(lines: seq<string>, last: string)
    ensures Terminated(lines) + last == Join(lines + [last], '\n')
  {
    if lines != [] {
      TerminatedJoin(lines);
      JoinSnoc(lines, last);
    }
  }

  /** Joining one more piece appends the separator and the piece. */
  lemma {:induction false} JoinSnoc(parts: seq<string>, last: string)
    requires |parts| >= 1
    ensures Join(parts + [last], '\n') == Join(parts, '\n') + "\n" + last
    decreases |parts|
  {
    if |parts| > 1 {
      assert (parts + [last])[1..] == parts[1..] + [last];
      JoinSnoc(parts[1..], last);
    } else {
      assert (parts + [last])[1..] == [last];
    }
  }

  /**
   * Before the struct's last field, the code and the intent agree on which
   * fields panic and which lines are emitted, and the code has written each
   * emitted line with a newline after it.
   */
  lemma {:induction false} WrittenBeforeLast(fields: seq<Field>, k: nat)
    requires k < |fields|
    ensures WrittenUpTo(fields, k).Panic? <==> LinesUpTo(fields, k).Panic?
    ensures WrittenUpTo(fields, k).Panic? ==> WrittenUpTo(fields, k) == Panic(LinesUpTo(fields, k).message)
    ensures WrittenUpTo(fields, k).Ok? ==> WrittenUpTo(fields, k).value == Terminated(LinesUpTo(fields, k).value)
    decreases k
  {
    if k > 0 {
      WrittenBeforeLast(fields, k - 1);
      var lines := LinesUpTo(fields, k - 1);
      if lines.Ok? {
        match FieldOutcome(fields[k - 1])
        case Panic(_) =>
        case Ok(Skip) =>
        case Ok(Emit(key, value)) =>
          var ls := lines.value + [Line(key, value)];
          assert ls[..|ls| - 1] == lines.value;
      }
    }
  }

  /** The struct's last field is skipped although an earlier field emitted a line. */
  predicate EndsWithSkip(fields: seq<Field>)
  {
    && |fields| > 0
    && FieldOutcome(fields[|fields| - 1]) == Ok(Skip)
    && LinesUpTo(fields, |fields|).Ok?
    && LinesUpTo(fields, |fields|).value != []
  }

  /**
   * The code's output is the intended one, except that when the struct's
   * last field is skipped after some line was emitted, it ends with an extra
   * newline; both panic alike.
   */
  lemma WrittenVersusIntended(fields: seq<Field>)
    ensures SerializedAsWritten(Struct(fields)) ==
      match Serialized(Struct(fields))
      case Panic(m) => Panic(m)
      case Ok(text) => Ok(text + if EndsWithSkip(fields) then "\n" else "")
  {
    var n := |fields|;
    if n > 0 {
      WrittenBeforeLast(fields, n - 1);
      var before := LinesUpTo(fields, n - 1);
      var last := FieldOutcome(fields[n - 1]);
      if before.Panic? {
        assert WrittenUpTo(fields, n - 1) == Panic(before.message);
        assert WrittenUpTo(fields, n) == Panic(before.message);
        assert LinesUpTo(fields, n) == Panic(before.message);
      } else if last.Panic? {
        assert WrittenUpTo(fields, n) == Panic(last.message);
        assert LinesUpTo(fields, n) == Panic(last.message);
      } else if last == Ok(Skip) {
        LastSkipped(fields, before.value);
      } else {
        var lines := before.value + [Line(last.value.key, last.value.value)];
        LastEmitted(fields, before.value, last.value.key, last.value.value);
        assert !EndsWithSkip(fields);
        assert JoinLines(lines) + "" == JoinLines(lines);
      }
    } else {
      assert WrittenUpTo(fields, 0) == Ok("") && LinesUpTo(fields, 0) == Ok([]);
      assert JoinLines([]) + "" == "";
    }
  }

  /** A skipped last field: the lines so far, and the newline after the last of them stays. */
  lemma LastSkipped(fields: seq<Field>, lines: seq<string>)
    requires |fields| > 0 && FieldOutcome(fields[|fields| - 1]) == Ok(Skip)
    requires LinesUpTo(fields, |fields| - 1) == Ok(lines)
    requires WrittenUpTo(fields, |fields| - 1) == Ok(Terminated(lines))
    ensures LinesUpTo(fields, |fields|) == Ok(lines)
    ensures WrittenUpTo(fields, |fields|) == Ok(JoinLines(lines) + if lines != [] then "\n" else "")
  {
    var n := |fields|;
    assert WrittenUpTo(fields, n) == WrittenUpTo(fields, n - 1);
    if lines != [] {
      TerminatedJoin(lines);
      assert JoinLines(lines) == Join(lines, '\n');
      assert Terminated(lines) == JoinLines(lines) + "\n";
    } else {
      assert Terminated(lines) == "" && JoinLines(lines) == "";
      assert Terminated(lines) == JoinLines(lines) + "";
    }
  }

  /** An emitted last field: its line ends the output with no newline after it. */
  lemma LastEmitted(fields: seq<Field>, lines: seq<string>, key: string, value: string)
    requires |fields| > 0 && FieldOutcome(fields[|fields| - 1]) == Ok(Emit(key, value))
    requires LinesUpTo(fields, |fields| - 1) == Ok(lines)
    requires WrittenUpTo(fields, |fields| - 1) == Ok(Terminated(lines))
    ensures LinesUpTo(fields, |fields|) == Ok(lines + [Line(key, value)])
    ensures WrittenUpTo(fields, |fields|) == Ok(JoinLines(lines + [Line(key, value)]))
  {
    var n := |fields|;
    assert WrittenUpTo(fields, n) == Ok(Terminated(lines) + Line(key, value) + "");
    TerminatedThen(lines, Line(key, value));
    assert Terminated(lines) + Line(key, value) + "" == Terminated(lines) + Line(key, value);
  }

  /** A plain tagged field followed, as the struct's last field, by an empty omitempty one. */
  function TrailingExample(a: string, x: string, b: string): seq<Field>
  {
    [Field(Some(a), x), Field(Some(b + "," + Omitempty), "")]
  }

  lemma TrailingExampleOutcomes(a: string, x: string, b: string)
    requires ',' !in a && ',' !in b && b != Omitempty
    ensures FieldOutcome(TrailingExample(a, x, b)[0]) == Ok(Emit(a, x))
    ensures FieldOutcome(TrailingExample(a, x, b)[1]) == Ok(Skip)
  {
    SplitWhole(a, ',');
    ParsePropKeyThenOmitempty(b);
  }

  /** As written, a skipped last field leaves the previous line's newline in place. */
  lemma TrailingNewline(a: string, x: string, b: string)
    requires ',' !in a && ',' !in b && b != Omitempty
    ensures SerializedAsWritten(Struct(TrailingExample(a, x, b))) == Ok(a + "=" + x + "\n")
  {
    TrailingExampleOutcomes(a, x, b);
    var fields := TrailingExample(a, x, b);
    assert |fields| == 2;
    assert WrittenUpTo(fields, 0) == Ok("");
    assert "" + Line(a, x) + "\n" == a + "=" + x + "\n";
    assert WrittenUpTo(fields, 1) == Ok(a + "=" + x + "\n");
  }

  /** As intended, the same fields serialize without it. */
  lemma NoTrailingNewline(a: string, x: string, b: string)
    requires ',' !in a && ',' !in b && b != Omitempty
    ensures Serialized(Struct(TrailingExample(a, x, b))) == Ok(a + "=" + x)
  {
    TrailingExampleOutcomes(a, x, b);
    var fields := TrailingExample(a, x, b);
    assert |fields| == 2;
    assert LinesUpTo(fields, 0) == Ok([]);
    assert [] + [Line(a, x)] == [Line(a, x)];
    assert LinesUpTo(fields, 1) == Ok([Line(a, x)]);
  }

  /**
   * The intended output splits at its newlines back into exactly the emitted
   * lines, when no key or value contains a newline.
   */
  lemma SerializedLines(fields: seq<Field>)
    requires Serialized(Struct(fields)).Ok? && LinesUpTo(fields, |fields|).value != []
    requires forall i :: 0 <= i < |LinesUpTo(fields, |fields|).value| ==> '\n' !in LinesUpTo(fields, |fields|).value[i]
    ensures Split(Serialized(Struct(fields)).value, '\n') == LinesUpTo(fields, |fields|).value
  {
    SplitJoin(LinesUpTo(fields, |fields|).value, '\n');
  }

  /** The Person struct of the tests: name, address (omitempty), age and married, as %v formats them. */
  function PersonFields(name: string, address: string, age: int, married: bool): seq<Field>
  {
    [ Field(Some("name"), name),
      Field(Some("address,omitempty"), address),
      Field(Some("age"), IntToString(age)),
      Field(Some("married"), if married then "true" else "false") ]
  }

  lemma NameOutcome(name: string)
    ensures FieldOutcome(Field(Some("name"), name)) == Ok(Emit("name", name))
  {
    SplitWhole("name", ',');
  }

  lemma AddressOutcome(address: string)
    ensures FieldOutcome(Field(Some("address,omitempty"), address)) ==
      if address == "" then Ok(Skip) else Ok(Emit("address", address))
  {
    ParsePropKeyThenOmitempty("address");
    assert "address" + "," + Omitempty == "address,omitempty";
  }

  lemma AgeOutcome(age: string)
    ensures FieldOutcome(Field(Some("age"), age)) == Ok(Emit("age", age))
  {
    SplitWhole("age", ',');
  }

  lemma MarriedOutcome(married: string)
    ensures FieldOutcome(Field(Some("married"), married)) == Ok(Emit("married", married))
  {
    SplitWhole("married", ',');
  }

  /** One emitted field more appends its line, and a newline unless it is the last field. */
  lemma WrittenEmit(fields: seq<Field>, k: nat, prefix: string, key: string, value: string)
    requires 0 < k <= |fields| && WrittenUpTo(fields, k - 1) == Ok(prefix)
    requires FieldOutcome(fields[k - 1]) == Ok(Emit(key, value))
    ensures WrittenUpTo(fields, k) == Ok(prefix + Line(key, value) + if k < |fields| then "\n" else "")
  {
  }

  /** One skipped field more leaves the output as it was. */
  lemma WrittenSkip(fields: seq<Field>, k: nat, prefix: string)
    requires 0 < k <= |fields| && WrittenUpTo(fields, k - 1) == Ok(prefix)
    requires FieldOutcome(fields[k - 1]) == Ok(Skip)
    ensures WrittenUpTo(fields, k) == Ok(prefix)
  {
  }

  /**
   * Four fields of which the second alone may be skipped write their lines
   * in order, each but the last followed by a newline.
   */
  lemma FourWritten(fields: seq<Field>, k0: string, v0: string, k1: string, v1: string, second: bool,
                    k2: string, v2: string, k3: string, v3: string)
    requires |fields| == 4
    requires FieldOutcome(fields[0]) == Ok(Emit(k0, v0))
    requires FieldOutcome(fields[1]) == if second then Ok(Emit(k1, v1)) else Ok(Skip)
    requires FieldOutcome(fields[2]) == Ok(Emit(k2, v2))
    requires FieldOutcome(fields[3]) == Ok(Emit(k3, v3))
    ensures WrittenUpTo(fields, 4) ==
      Ok(Line(k0, v0) + "\n" + (if second then Line(k1, v1) + "\n" else "") + Line(k2, v2) + "\n" + Line(k3, v3))
  {
    WrittenEmit(fields, 1, "", k0, v0);
    var w1 := Line(k0, v0) + "\n";
    assert "" + Line(k0, v0) + "\n" == w1;
    var w2;
    if second {
      WrittenEmit(fields, 2, w1, k1, v1);
      w2 := w1 + Line(k1, v1) + "\n";
      assert w2 == w1 + (Line(k1, v1) + "\n");
    } else {
      WrittenSkip(fields, 2, w1);
      w2 := w1;
      assert w2 == w1 + "";
    }
    WrittenEmit(fields, 3, w2, k2, v2);
    var w3 := w2 + Line(k2, v2) + "\n";
    WrittenEmit(fields, 4, w3, k3, v3);
    assert w3 + Line(k3, v3) + "" == w3 + Line(k3, v3);
  }

  /** The outcome of each of a Person's four fields. */
  lemma PersonOutcomes(name: string, address: string, age: int, married: bool)
    ensures var fields := PersonFields(name, address, age, married);
      && |fields| == 4
      && FieldOutcome(fields[0]) == Ok(Emit("name", name))
      && FieldOutcome(fields[1]) == (if address != "" then Ok(Emit("address", address)) else Ok(Skip))
      && FieldOutcome(fields[2]) == Ok(Emit("age", IntToString(age)))
      && FieldOutcome(fields[3]) == Ok(Emit("married", if married then "true" else "false"))
  {
    var fields := PersonFields(name, address, age, married);
    NameOutcome(fields[0].value);
    AddressOutcome(fields[1].value);
    AgeOutcome(fields[2].value);
    MarriedOutcome(fields[3].value);
  }

  /**
   * A Person serializes as its name line, the address line only when the
   * address is not empty, the age line and the married line, with no newline
   * at the end.
   */
  lemma PersonSerialized(name: string, address: string, age: int, married: bool)
    ensures SerializedAsWritten(Struct(PersonFields(name, address, age, married))) ==
      Ok(Line("name", name) + "\n"
         + (if address != "" then Line("address", address) + "\n" else "")
         + Line("age", IntToString(age)) + "\n"
         + Line("married", if married then "true" else "false"))
  {
    var fields := PersonFields(name, address, age, married);
    PersonOutcomes(name, address, age, married);
    FourWritten(fields, "name", name, "address", address, address != "", "age", IntToString(age),
                "married", if married then "true" else "false");
  }

  /** Serialize panics on anything that is not a struct. */
  method ScenarioNotStruct() returns (r: Result<string>)
    ensures r == Panic("expected struct type, actual: int")
  {
    r := Serialize(Other("int"));
  }
}
