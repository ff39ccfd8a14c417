/**
 * The errors exercise: a MultiError that collects errors, flattening nested
 * multi-errors and skipping nils, formats them as one message, and unwraps
 * into a QueueError chain that yields the collected errors one at a time.
 *
 * Go's error interface values are modelled by a datatype with the four
 * dynamic types that matter here; a nil error is None.
 */
module MultiErrors {
  import opened Wrappers
  import opened Decimal

  datatype Error =
    | Message(text: string)                 // errors.New, or fmt.Errorf without %w
    | Wrapped(text: string, inner: Error)   // fmt.Errorf with %w: its own text, unwrapping to inner
    | Multi(errors: seq<Error>)             // a *MultiError
    | Queue(errors: seq<Error>)             // a *QueueError

  /** The "\t* msg" entries, one per message, in order. */
  function Items(texts: seq<string>): string
  {
    if texts == [] then ""
    else Items(texts[..|texts| - 1]) + "\t* " + texts[|texts| - 1]
  }

  /** The header and then, when there is anything to list, the entries and a newline. */
  function MultiText(texts: seq<string>): string
  {
    var header := NatToString(|texts|) + " errors occured:\n";
    if |texts| == 0 then header else header + Items(texts) + "\n"
  }

  /** Error(): the text each dynamic type reports. */
  function Text(e: Error): string
  {
    match e
    case Message(text) => text
    case Wrapped(text, _) => text
    case Multi(errors) => MultiText(seq(|errors|, i requires 0 <= i < |errors| => Text(errors[i])))
    case Queue(errors) => if |errors| == 0 then "" else Text(errors[0])
  }

  /** The texts of a list of errors. */
  function Texts(errors: seq<Error>): (ts: seq<string>)
    ensures |ts| == |errors| && forall i :: 0 <= i < |errors| ==> ts[i] == Text(errors[i])
  {
    seq(|errors|, i requires 0 <= i < |errors| => Text(errors[i]))
  }

  /** A multi-error's message lists the messages of its errors. */
  lemma MultiTextOf(errors: seq<Error>)
    ensures Text(Multi(errors)) == MultiText(Texts(errors))
  {
    var ts := seq(|errors|, i requires 0 <= i < |errors| => Text(errors[i]));
    assert ts == Texts(errors);
  }

  /** With nothing collected the message is the header alone. */
  lemma NoMessages()
    ensures MultiText([]) == "0 errors occured:\n"
  {
  }

  /** A single message is listed as one entry. */
  lemma ItemsOne(t: string)
    ensures Items([t]) == "\t* " + t
  {
    assert [t][..0] == [];
  }

  /** Two messages are listed one after the other with no separator. */
  lemma ItemsTwo(t1: string, t2: string)
    ensures Items([t1, t2]) == "\t* " + t1 + "\t* " + t2
  {
    assert [t1, t2][..1] == [t1];
    ItemsOne(t1);
  }

  /** One collected message: the header, its entry and the final newline. */
  lemma OneMessage(t: string)
    ensures MultiText([t]) == "1 errors occured:\n\t* " + t + "\n"
  {
    calc {
      MultiText([t]);
    == { MultiTextListed([t]); }
      NatToString(1) + " errors occured:\n" + Items([t]) + "\n";
    == { assert NatToString(1) + " errors occured:\n" == "1 errors occured:\n" by { assert NatToString(1) == "1"; }
         ItemsOne(t); }
      "1 errors occured:\n" + ("\t* " + t) + "\n";
    }
  }

  /** A non-empty list: the header, the entries and a final newline. */
  lemma MultiTextListed(texts: seq<string>)
    requires |texts| > 0
    ensures MultiText(texts) == NatToString(|texts|) + " errors occured:\n" + Items(texts) + "\n"
  {
  }

  /** The message the happy path expects for its one real error. */
  lemma RealErrorMessage()
    ensures MultiText(["real error"]) == "1 errors occured:\n\t* real error\n"
  {
    OneMessage("real error");
  }

  /** The header for two messages: the count spelled as "2". */
  lemma HeaderTwo()
    ensures NatToString(2) + " errors occured:\n" == "2 errors occured:\n"
  {
    assert NatToString(2) == "2";
  }

  /** TestMultiError's two entries, listed one after the other. */
  lemma TestItems()
    ensures Items(["error 1", "error 2"]) == "\t* error 1\t* error 2"
  {
    ItemsTwo("error 1", "error 2");
  }

  /**
   * Gluing the header, the entries and the newline of TestMultiError's
   * message, apart from the lemmas that compute the pieces: the solver
   * compares the literals far more cheaply here.
   */
  lemma TwoMessagesGlued(header: string, items: string)
    requires header == "2 errors occured:\n" && items == "\t* error 1\t* error 2"
    ensures header + items + "\n" == "2 errors occured:\n\t* error 1\t* error 2\n"
  {
  }

  /** The message TestMultiError expects for two plain errors. */
  lemma TwoMessages()
    ensures MultiText(["error 1", "error 2"]) == "2 errors occured:\n\t* error 1\t* error 2\n"
  {
    var texts := ["error 1", "error 2"];
    MultiTextListed(texts);
    HeaderTwo();
    TestItems();
    TwoMessagesGlued(NatToString(2) + " errors occured:\n", Items(texts));
  }

  /** Each extra message adds its entry at the end. */
  lemma ItemsAppend(texts: seq<string>, t: string)
    ensures Items(texts + [t]) == Items(texts) + "\t* " + t
  {
    assert (texts + [t])[..|texts|] == texts;
  }

  /** Listing one more of the messages adds its entry. */
  lemma ItemsPrefix(texts: seq<string>, i: nat)
    requires i < |texts|
    ensures Items(texts[..i + 1]) == Items(texts[..i]) + "\t* " + texts[i]
  {
    assert texts[..i + 1] == texts[..i] + [texts[i]];
    ItemsAppend(texts[..i], texts[i]);
  }

  /** Listing two runs of messages lists the first and then the second. */
  lemma {:induction false} ItemsConcat(a: seq<string>, b: seq<string>)
    ensures Items(a + b) == Items(a) + Items(b)
    decreases |b|
  {
    if b == [] {
      assert a + b == a;
    } else {
      var b', t := b[..|b| - 1], b[|b| - 1];
      assert b == b' + [t];
      assert a + b == (a + b') + [t];
      calc {
        Items(a + b);
        { ItemsAppend(a + b', t); }
        Items(a + b') + "\t* " + t;
        { ItemsConcat(a, b'); }
        Items(a) + Items(b') + "\t* " + t;
        { ItemsAppend(b', t); }
        Items(a) + Items(b);
      }
    }
  }

  /** QueueError.Unwrap: the queue without its head, or nil when at most one error is left. */
  function QueueUnwrap(errors: seq<Error>): (r: Option<Error>)
    ensures r.Some? <==> |errors| > 1
    ensures r.Some? ==> r.value == Queue(errors[1..])
  {
    if |errors| > 1 then Some(Queue(errors[1..])) else None
  }

  /**
   * MultiError.Unwrap, over the multi-error's list: nil for no errors,
   * otherwise a queue over the same errors, which reports the first one.
   */
  function MultiUnwrap(errors: seq<Error>): (r: Option<Error>)
    ensures r.Some? <==> |errors| > 0
    ensures r.Some? ==> r.value == Queue(errors)
    ensures r.Some? ==> Text(r.value) == Text(errors[0])
  {
    if |errors| == 0 then None else Some(Queue(errors))
  }

  /** errors.Unwrap: one step down the chain of any dynamic type. */
  function Unwrap(e: Error): Option<Error>
  {
    match e
    case Message(_) => None
    case Wrapped(_, inner) => Some(inner)
    case Multi(errors) => MultiUnwrap(errors)
    case Queue(errors) => QueueUnwrap(errors)
  }

  /** errors.Unwrap applied k times, staying nil once nil is reached. */
  function UnwrapTimes(e: Option<Error>, k: nat): Option<Error>
    decreases k
  {
    if k == 0 || e.None? then e else UnwrapTimes(Unwrap(e.value), k - 1)
  }

  /**
   * Unwrapping a multi-error k times, for 1 <= k <= n, gives the queue that
   * starts at its k-th error, whose text is that error's text; the next
   * unwrap gives nil.
   */
  lemma {:induction false} UnwrapChain(errors: seq<Error>, k: nat)
    requires 1 <= k <= |errors|
    ensures UnwrapTimes(Some(Multi(errors)), k) == Some(Queue(errors[k - 1..]))
    ensures Text(Queue(errors[k - 1..])) == Text(errors[k - 1])
    ensures UnwrapTimes(Some(Multi(errors)), |errors| + 1) == None
  {
    QueueChain(errors, k - 1);
    QueueChain(errors, |errors| - 1);
  }

  /** From the queue over all errors, k more unwraps reach the queue starting at index k. */
  lemma {:induction false} QueueChain(errors: seq<Error>, k: nat)
    requires k < |errors|
    ensures UnwrapTimes(Some(Multi(errors)), k + 1) == Some(Queue(errors[k..]))
    ensures UnwrapTimes(Some(Multi(errors)), k + 2) == if k + 1 < |errors| then Some(Queue(errors[k + 1..])) else None
  {
    if k == 0 {
      assert errors[0..] == errors;
    } else {
      QueueChain(errors, k - 1);
    }
    QueueSteps(Some(Multi(errors)), k + 1, Some(Queue(errors[k..])));
    assert errors[k..][1..] == errors[k + 1..];
  }

  /** One more unwrap after k of them is one unwrap of the k-th result. */
  lemma {:induction false} QueueSteps(e: Option<Error>, k: nat, at: Option<Error>)
    requires UnwrapTimes(e, k) == at
    ensures UnwrapTimes(e, k + 1) == if at.None? then None else Unwrap(at.value)
    decreases k
  {
    if k > 0 && e.Some? {
      QueueSteps(Unwrap(e.value), k - 1, at);
    }
  }

  /**
   * errors.As(err, &multiErr): the errors of the first *MultiError on err's
   * unwrap chain.  A queue unwraps only to shorter queues, so its chain never
   * holds one.
   */
  function FindMulti(e: Error): (r: Option<seq<Error>>)
    ensures e.Multi? ==> r == Some(e.errors)
    ensures e.Message? || e.Queue? ==> r.None?
  {
    match e
    case Message(_) => None
    case Wrapped(_, inner) => FindMulti(inner)
    case Multi(errors) => Some(errors)
    case Queue(_) => None
  }

  /**
   * add(err) as written: after errors.As has found a multi-error anywhere on
   * err's chain, the code asserts that err itself is a *MultiError, which
   * panics when the multi-error is wrapped.
   */
  function AddAsWritten(errors: seq<Error>, err: Option<Error>): (r: Result<seq<Error>>)
  {
    if err.None? then Ok(errors)
    else if FindMulti(err.value).Some? then
      if err.value.Multi? then Ok(errors + err.value.errors)
      else Panic("interface conversion: error is *fmt.wrapError, not *main.MultiError")
    else Ok(errors + [err.value])
  }

  /** What add contributes for one argument: nothing for nil, the found multi-error's errors, or err itself. */
  function Contribution(err: Option<Error>): (r: seq<Error>)
    ensures err.None? ==> r == []
    ensures err.Some? && err.value.Multi? ==> r == err.value.errors
    ensures err.Some? && (err.value.Message? || err.value.Queue?) ==> r == [err.value]
  {
    if err.None? then []
    else
      match FindMulti(err.value)
      case Some(found) => found
      case None => [err.value]
  }

  /** A %w-wrapped multi-error makes the add as written panic. */
  lemma WrappedMultiPanics()
    ensures AddAsWritten([], Some(Wrapped("context: error 1", Multi([Message("error 1")])))).Panic?
  {
  }

  /**
   * The add as written panics exactly on a non-multi-error whose chain holds
   * a multi-error, and otherwise appends what Contribution says.
   */
  lemma AddAsWrittenAgrees(errors: seq<Error>, err: Option<Error>)
    ensures AddAsWritten(errors, err).Panic? <==> err.Some? && FindMulti(err.value).Some? && !err.value.Multi?
    ensures AddAsWritten(errors, err).Ok? ==> AddAsWritten(errors, err).value == errors + Contribution(err)
  {
  }

  /** The corrected add flattens a wrapped multi-error instead of panicking. */
  lemma WrappedMultiFlattens(text: string, errors: seq<Error>)
    ensures Contribution(Some(Wrapped(text, Multi(errors)))) == errors
  {
  }

  /** Append's result: the contributions of every argument, in order. */
  function Flatten(args: seq<Option<Error>>): seq<Error>
  {
    if args == [] then [] else Flatten(args[..|args| - 1]) + Contribution(args[|args| - 1])
  }

  /** Flattening two runs of arguments flattens each and concatenates. */
  lemma {:induction false} FlattenConcat(a: seq<Option<Error>>, b: seq<Option<Error>>)
    ensures Flatten(a + b) == Flatten(a) + Flatten(b)
    decreases |b|
  {
    if b == [] {
      assert a + b == a;
    } else {
      var b', x := b[..|b| - 1], b[|b| - 1];
      calc {
        Flatten(a + b);
        { assert a + b == (a + b') + [x]; FlattenSnoc(a + b', x); }
        Flatten(a + b') + Contribution(x);
        { FlattenConcat(a, b'); }
        Flatten(a) + Flatten(b') + Contribution(x);
        { assert b == b' + [x]; FlattenSnoc(b', x); }
        Flatten(a) + Flatten(b);
      }
    }
  }

  /** One more argument adds its contribution at the end. */
  lemma FlattenSnoc(args: seq<Option<Error>>, arg: Option<Error>)
    ensures Flatten(args + [arg]) == Flatten(args) + Contribution(arg)
  {
    assert (args + [arg])[..|args|] == args;
  }

  /** Flattening one more of the arguments adds that argument's contribution. */
  lemma FlattenPrefix(args: seq<Option<Error>>, i: nat)
    requires i < |args|
    ensures Flatten(args[..i + 1]) == Flatten(args[..i]) + Contribution(args[i])
  {
    assert args[..i + 1] == args[..i] + [args[i]];
    FlattenSnoc(args[..i], args[i]);
  }

  /** A single argument contributes exactly what add appends for it. */
  lemma FlattenSingle(arg: Option<Error>)
    ensures Flatten([arg]) == Contribution(arg)
  {
    assert [arg][..0] == [];
  }

  /** Flattening the arguments front to back: the first contributes first. */
  lemma FlattenCons(arg: Option<Error>, rest: seq<Option<Error>>)
    ensures Flatten([arg] + rest) == Contribution(arg) + Flatten(rest)
  {
    FlattenConcat([arg], rest);
    FlattenSingle(arg);
  }

  /** Nil arguments contribute nothing, wherever they stand. */
  lemma NilSkipped(a: seq<Option<Error>>, b: seq<Option<Error>>)
    ensures Flatten(a + [None] + b) == Flatten(a + b)
  {
    FlattenConcat(a + [None], b);
    FlattenConcat(a, b);
    assert (a + [None])[..|a|] == a;
  }

  /** The number of collected errors: one per non-nil plain argument, all of each multi-error's. */
  function CountOf(args: seq<Option<Error>>): nat
  {
    if args == [] then 0
    else
      var last := args[|args| - 1];
      CountOf(args[..|args| - 1]) +
        (if last.None? then 0
         else match FindMulti(last.value)
              case Some(found) => |found|
              case None => 1)
  }

  lemma {:induction false} FlattenCount(args: seq<Option<Error>>)
    ensures |Flatten(args)| == CountOf(args)
    decreases |args|
  {
    if args != [] {
      FlattenCount(args[..|args| - 1]);
    }
  }

  class MultiError {
    var errors: seq<Error>

    constructor()
      ensures errors == []
    {
      errors := [];
    }

    /** The *MultiError seen as an error value. */
    function AsError(): (e: Error)
      reads this
      ensures e.Multi? && e.errors == errors
    {
      Multi(errors)
    }

    /** add: appends err's contribution, skipping nil and flattening a found multi-error. */
    method Add(err: Option<Error>)
      modifies this
      ensures errors == old(errors) + Contribution(err)
    {
      if err.None? {
        return;
      }
      var found := FindMulti(err.value);
      if found.Some? {
        errors := errors + found.value;
      } else {
        errors := errors + [err.value];
      }
    }

    /** Error(): the header, then one entry per error and a final newline, built piece by piece. */
    method Error() returns (s: string)
      ensures s == Text(Multi(errors))
    {
      var header := NatToString(|errors|) + " errors occured:\n";
      s := header;
      MultiTextOf(errors);
      if |errors| == 0 {
        return;
      }
      ghost var texts := Texts(errors);
      var i := 0;
      while i < |errors|
        invariant 0 <= i <= |errors|
        invariant s == header + Items(texts[..i])
      {
        ItemsPrefix(texts, i);
        s := s + "\t* " + Text(errors[i]);
        i := i + 1;
      }
      assert texts[..i] == texts;
      s := s + "\n";
    }
  }

  /** Append(err, errs...): a new multi-error holding every argument's contribution, in order. */
  method Append(err: Option<Error>, errs: seq<Option<Error>>) returns (ae: MultiError)
    ensures fresh(ae)
    ensures ae.errors == Flatten([err] + errs)
  {
    ae := new MultiError();
    ghost var args := [err] + errs;
    FlattenPrefix(args, 0);
    ae.Add(err);
    var i := 0;
    while i < |errs|
      invariant 0 <= i <= |errs|
      invariant ae.errors == Flatten(args[..i + 1])
    {
      FlattenPrefix(args, i + 1);
      ae.Add(errs[i]);
      i := i + 1;
    }
    assert args[..i + 1] == args;
  }

  /** TestMultiError: appending twice onto a nil error lists both, in order. */
  method ScenarioTwoErrors() returns (msg: string)
    ensures msg == "2 errors occured:\n\t* error 1\t* error 2\n"
  {
    var e1, e2 := Message("error 1"), Message("error 2");
    var first := Append(None, [Some(e1)]);
    FlattenCons(None, [Some(e1)]);
    FlattenSingle(Some(e1));
    var second := Append(Some(first.AsError()), [Some(e2)]);
    FlattenCons(Some(Multi([e1])), [Some(e2)]);
    FlattenSingle(Some(e2));
    assert second.errors == [e1, e2];
    msg := second.Error();
    MultiTextOf([e1, e2]);
    assert Texts([e1, e2]) == ["error 1", "error 2"];
    TwoMessages();
  }

  /** "without arguments": Append of a nil error alone lists nothing. */
  method ScenarioNoArguments() returns (msg: string)
    ensures msg == "0 errors occured:\n"
  {
    var nil: Option<Error> := None;
    var a := Append(nil, []);
    FlattenSingle(nil);
    assert [nil] + [] == [nil];
    msg := a.Error();
    MultiTextOf([]);
    NoMessages();
  }

  /** Nil errors only: every one of them is skipped. */
  method ScenarioOnlyNils() returns (msg: string)
    ensures msg == "0 errors occured:\n"
  {
    var nil: Option<Error> := None;
    var b := Append(nil, [nil, nil, nil]);
    FlattenCons(nil, [nil, nil, nil]);
    assert [nil, nil, nil] == [nil] + [nil, nil];
    FlattenCons(nil, [nil, nil]);
    assert [nil, nil] == [nil] + [nil];
    FlattenCons(nil, [nil]);
    FlattenSingle(nil);
    assert b.errors == [];
    msg := b.Error();
    MultiTextOf([]);
    NoMessages();
  }

  /** Appending one real error among nils keeps only the real error. */
  method OneAmongNils() returns (c: MultiError)
    ensures fresh(c) && c.errors == [Message("real error")]
  {
    var actual := Message("real error");
    var nil: Option<Error> := None;
    c := Append(nil, [nil, Some(actual), nil]);
    FlattenCons(nil, [nil, Some(actual), nil]);
    assert [nil, Some(actual), nil] == [nil] + [Some(actual), nil];
    FlattenCons(nil, [Some(actual), nil]);
    assert [Some(actual), nil] == [Some(actual)] + [nil];
    FlattenCons(Some(actual), [nil]);
    FlattenSingle(nil);
  }

  /** "with valid or invalid arguments": one real error among nils is the only one listed. */
  method ScenarioOneAmongNils() returns (msg: string)
    ensures msg == "1 errors occured:\n\t* real error\n"
  {
    var c := OneAmongNils();
    msg := c.Error();
    MultiTextOf([Message("real error")]);
    assert Texts([Message("real error")]) == ["real error"];
    RealErrorMessage();
  }

  /** "unwrap": the unwraps of three appended errors report them in order, then nil. */
  method ScenarioUnwrap() returns (t1: string, t2: string, t3: string, fourth: Option<Error>)
    ensures t1 == "error 1" && t2 == "error 2" && t3 == "error 3" && fourth.None?
  {
    var e1, e2, e3 := Message("error 1"), Message("error 2"), Message("error 3");
    var err := Append(Some(e1), [Some(e2), Some(e3)]);
    assert err.errors == [e1, e2, e3] by {
      FlattenCons(Some(e1), [Some(e2), Some(e3)]);
      assert [Some(e2), Some(e3)] == [Some(e2)] + [Some(e3)];
      FlattenCons(Some(e2), [Some(e3)]);
      FlattenSingle(Some(e3));
    }
    var es := err.errors;
    var e := err.AsError();
    assert UnwrapTimes(Some(e), 1) == Some(Queue(es[0..])) && Text(Queue(es[0..])) == "error 1" by {
      UnwrapChain(es, 1);
    }
    t1 := Text(UnwrapTimes(Some(e), 1).value);
    assert UnwrapTimes(Some(e), 2) == Some(Queue(es[1..])) && Text(Queue(es[1..])) == "error 2" by {
      UnwrapChain(es, 2);
    }
    t2 := Text(UnwrapTimes(Some(e), 2).value);
    assert UnwrapTimes(Some(e), 3) == Some(Queue(es[2..])) && Text(Queue(es[2..])) == "error 3" by {
      UnwrapChain(es, 3);
    }
    t3 := Text(UnwrapTimes(Some(e), 3).value);
    assert UnwrapTimes(Some(e), |es| + 1) == None by {
      UnwrapChain(es, 3);
    }
    fourth := UnwrapTimes(Some(e), |es| + 1);
  }

  /**
   * "unwrap recursive": a multi-error appended among plain errors is
   * flattened, so the unwraps report errors 1 to 4 and then nil.
   */
  method ScenarioUnwrapRecursive() returns (t1: string, t2: string, t3: string, t4: string, fifth: Option<Error>)
    ensures t1 == "error 1" && t2 == "error 2" && t3 == "error 3" && t4 == "error 4" && fifth.None?
  {
    var e1, e2, e3, e4 := Message("error 1"), Message("error 2"), Message("error 3"), Message("error 4");
    var inner := Append(Some(e2), [Some(e3)]);
    FlattenCons(Some(e2), [Some(e3)]);
    FlattenSingle(Some(e3));
    assert inner.errors == [e2, e3];
    var err := Append(Some(e1), [Some(inner.AsError()), Some(e4)]);
    FlattenCons(Some(e1), [Some(Multi([e2, e3])), Some(e4)]);
    assert [Some(Multi([e2, e3])), Some(e4)] == [Some(Multi([e2, e3]))] + [Some(e4)];
    FlattenCons(Some(Multi([e2, e3])), [Some(e4)]);
    FlattenSingle(Some(e4));
    var es := err.errors;
    assert es == [e1] + ([e2, e3] + [e4]);
    assert es == [e1, e2, e3, e4];
    UnwrapChain(es, 1);
    t1 := Text(UnwrapTimes(Some(err.AsError()), 1).value);
    UnwrapChain(es, 2);
    t2 := Text(UnwrapTimes(Some(err.AsError()), 2).value);
    UnwrapChain(es, 3);
    t3 := Text(UnwrapTimes(Some(err.AsError()), 3).value);
    UnwrapChain(es, 4);
    t4 := Text(UnwrapTimes(Some(err.AsError()), 4).value);
    fifth := UnwrapTimes(Some(err.AsError()), 5);
  }
}
