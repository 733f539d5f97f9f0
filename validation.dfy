/**
 * The error message `Validatable` builds from the violations that
 * `class-validator` reports: nested `reduce`s with string `+=`.
 */
module Validation {
  import opened Wrappers

  /**
   * One `ValidationError`: `value` is the offending value as rendered by a
   * template literal, `constraints` the messages of `Object.values(error.constraints)`
   * in their enumeration order.
   */
  datatype Violation = Violation(value: string, constraints: seq<string>)

  const Header: string := "Model property incomparable: \n"

  /** The text one constraint message contributes. */
  function Segment(value: string, message: string): string
  {
    "\n" + message + ": but got a " + value
  }

  /** The inner `reduce` over one violation's constraint messages, from `acc`. */
  function ConstraintText(value: string, messages: seq<string>, acc: string): string
    decreases messages
  {
    if messages == [] then acc
    else ConstraintText(value, messages[1..], acc + Segment(value, messages[0]))
  }

  /** The outer `reduce` over the violations, from `acc`. */
  function ViolationText(vs: seq<Violation>, acc: string): string
    decreases vs
  {
    if vs == [] then acc
    else ViolationText(vs[1..], acc + ConstraintText(vs[0].value, vs[0].constraints, ""))
  }

  /** The message of the `Error` thrown when the violation list is non-empty; None when nothing is thrown. */
  function ValidationError(vs: seq<Violation>): (r: Option<string>)
    ensures r.Some? <==> vs != []
    ensures r.Some? ==> |Header| <= |r.value| && r.value[..|Header|] == Header
  {
    if vs == [] then None else Some(Header + ViolationText(vs, ""))
  }

  /** Reference definition: the segments of one violation, concatenated in order. */
  function Segments(value: string, messages: seq<string>): string
    decreases messages
  {
    if messages == [] then "" else Segment(value, messages[0]) + Segments(value, messages[1..])
  }

  /** Reference definition: the segments of every violation, concatenated in order. */
  function AllSegments(vs: seq<Violation>): string
    decreases vs
  {
    if vs == [] then "" else Segments(vs[0].value, vs[0].constraints) + AllSegments(vs[1..])
  }

  /** The inner fold appends the violation's segments to its accumulator. */
  lemma {:induction false} ConstraintTextIsSegments(value: string, messages: seq<string>, acc: string)
    ensures ConstraintText(value, messages, acc) == acc + Segments(value, messages)
    decreases messages
  {
    if messages != [] {
      var s := Segment(value, messages[0]);
      ConstraintTextIsSegments(value, messages[1..], acc + s);
      assert acc + s + Segments(value, messages[1..]) == acc + (s + Segments(value, messages[1..]));
    }
  }

  /** The outer fold appends every violation's segments to its accumulator. */
  lemma {:induction false} ViolationTextIsAllSegments(vs: seq<Violation>, acc: string)
    ensures ViolationText(vs, acc) == acc + AllSegments(vs)
    decreases vs
  {
    if vs != [] {
      var s := Segments(vs[0].value, vs[0].constraints);
      ConstraintTextIsSegments(vs[0].value, vs[0].constraints, "");
      assert "" + s == s;
      ViolationTextIsAllSegments(vs[1..], acc + s);
      assert acc + s + AllSegments(vs[1..]) == acc + (s + AllSegments(vs[1..]));
    }
  }

  /**
   * The message is the header followed by one segment per constraint
   * message, violation by violation, in order.
   */
  lemma ValidationErrorText(vs: seq<Violation>)
    requires vs != []
    ensures ValidationError(vs) == Some(Header + AllSegments(vs))
  {
    ViolationTextIsAllSegments(vs, "");
    assert "" + AllSegments(vs) == AllSegments(vs);
  }

  /** The text of a list of violations is the text of its parts, in order. */
  lemma {:induction false} AllSegmentsAppend(vs: seq<Violation>, ws: seq<Violation>)
    ensures AllSegments(vs + ws) == AllSegments(vs) + AllSegments(ws)
    decreases vs
  {
    if vs == [] {
      assert [] + ws == ws;
    } else {
      var s := Segments(vs[0].value, vs[0].constraints);
      calc {
        AllSegments(vs + ws);
        { assert (vs + ws)[0] == vs[0] && (vs + ws)[1..] == vs[1..] + ws; }
        s + AllSegments(vs[1..] + ws);
        { AllSegmentsAppend(vs[1..], ws); }
        s + (AllSegments(vs[1..]) + AllSegments(ws));
        s + AllSegments(vs[1..]) + AllSegments(ws);
      }
    }
  }

  /**
   * A violation without constraint messages adds no text, yet on its own it
   * still makes the error be thrown, with the bare header as its message.
   */
  lemma EmptyViolationAddsNothing(vs: seq<Violation>, value: string)
    ensures AllSegments(vs + [Violation(value, [])]) == AllSegments(vs)
    ensures ValidationError([Violation(value, [])]) == Some(Header)
  {
    var e := [Violation(value, [])];
    assert AllSegments(e) == "" by {
      assert e[1..] == [];
    }
    AllSegmentsAppend(vs, e);
    assert AllSegments(vs) + "" == AllSegments(vs);
    ValidationErrorText(e);
    assert Header + "" == Header;
  }

  /**
   * A `ValidationError` as `class-validator` reports it: `constraints` is
   * absent (None) on an error that only carries nested `children`.
   */
  datatype Reported = Reported(value: string, constraints: Option<seq<string>>)

  /** What the `.then` callback does: nothing, throw the message `Error`, or throw a `TypeError`. */
  datatype Outcome = Passed | Thrown(message: string) | TypeError

  /**
   * The violations with their constraint messages, or None when some error
   * has no `constraints`, where `Object.values(error.constraints)` throws.
   */
  function Collect(rs: seq<Reported>): (r: Option<seq<Violation>>)
    ensures r.None? <==> exists i :: 0 <= i < |rs| && rs[i].constraints.None?
    ensures r.Some? ==> (|r.value| == |rs| &&
      forall i :: 0 <= i < |rs| ==> r.value[i] == Violation(rs[i].value, rs[i].constraints.value))
    decreases rs
  {
    if rs == [] then Some([])
    else match (rs[0].constraints, Collect(rs[1..]))
      case (Some(c), Some(tail)) =>
        assert forall i :: 1 <= i < |rs| ==> rs[1..][i - 1] == rs[i];
        Some([Violation(rs[0].value, c)] + tail)
      case (_, _) =>
        assert forall i :: 1 <= i < |rs| ==> rs[1..][i - 1] == rs[i];
        None
  }

  /**
   * The callback on the errors `validate` resolved with: nothing happens
   * for an empty list; otherwise a `TypeError` is thrown when some error
   * has no `constraints`, and the message `Error` when every error has them.
   */
  function Validate(rs: seq<Reported>): (r: Outcome)
    ensures r.Passed? <==> rs == []
    ensures r.TypeError? <==> rs != [] && exists i :: 0 <= i < |rs| && rs[i].constraints.None?
    ensures r.Thrown? ==> Collect(rs).Some? && ValidationError(Collect(rs).value) == Some(r.message)
  {
    if rs == [] then Passed
    else match Collect(rs)
      case None => TypeError
      case Some(vs) => Thrown(ValidationError(vs).value)
  }

  /**
   * When every reported error has constraints, the thrown message is the
   * header followed by the segments of every error, in order.
   */
  lemma {:induction false} ValidateMessage(rs: seq<Reported>)
    requires rs != [] && forall i :: 0 <= i < |rs| ==> rs[i].constraints.Some?
    ensures Collect(rs).Some? && Validate(rs) == Thrown(Header + AllSegments(Collect(rs).value))
  {
    assert !(exists i :: 0 <= i < |rs| && rs[i].constraints.None?);
    var vs := Collect(rs).value;
    assert |vs| == |rs| > 0;
    ValidationErrorText(vs);
    assert Validate(rs) == Thrown(ValidationError(vs).value);
  }

  /** A violation of one constraint on a field holding `-1`. */
  lemma SingleViolationMessage()
    ensures ValidationError([Violation("-1", ["must be >= 0"])])
         == Some(Header + "\nmust be >= 0: but got a -1")
  {
    var m := "must be >= 0";
    var vs := [Violation("-1", [m])];
    assert Segments("-1", [m]) == Segment("-1", m) by {
      assert [m][1..] == [];
    }
    assert AllSegments(vs) == Segment("-1", m) by {
      assert vs[1..] == [];
    }
    ValidationErrorText(vs);
    assert Segment("-1", m) == "\nmust be >= 0: but got a -1";
  }
}
