/** The validation aggregator of utils/validate.js: a rule table (field name
    to an ordered chain of express-validator checks) is run field by field
    against an argument bag; every failure of every field is collected, in
    order, and a tagged VALIDATION_ERROR is thrown exactly when there is at
    least one. */
module Validate {
  import opened Common
  import Errors

  /** The checks the rule tables use, each with the message it reports. */
  datatype Check =
    | IsString(msg: string)
    | NotEmpty(msg: string)
    | IsLength(minLength: nat, msg: string)
    | IsIn(options: seq<string>, msg: string)
    | IsFloat(minValue: real, msg: string)
    | IsEmail(msg: string)
    | IsISO8601(msg: string)

  /** One field's chain. An optional chain is skipped when the field is
      undefined (absent from the bag); null is still checked. */
  datatype FieldRules = FieldRules(field: string, optional: bool, checks: seq<Check>)

  type Schema = seq<FieldRules>

  /** The argument bag handed to the validator (`req.body`). */
  type Args = map<string, Value>

  /** The message express-validator reports for a check without one. */
  const DefaultMessage := "Invalid value"

  /** The library predicates behind the checks, left uninterpreted: e-mail and
      ISO 8601 recognition, float parsing, and the text of numbers and dates. */
  datatype Predicates = Predicates(
    isEmail: string -> bool,
    isISO8601: string -> bool,
    parseFloat: string -> Option<real>,
    numberText: real -> string,
    dateText: string -> string)

  /** What the library predicates say of the empty string (the text of
      undefined and null): no e-mail, no date, no number. */
  predicate RejectsEmpty(p: Predicates) {
    !p.isEmail("") && !p.isISO8601("") && p.parseFloat("").None?
  }

  /** One failed check as express-validator records it on the request. */
  datatype Failure = Failure(path: string, msg: string)

  /** The value of a field, None when undefined. */
  function Lookup(args: Args, field: string): Option<Value> {
    if field in args then Some(args[field]) else None
  }

  /** The text a check sees: undefined and null read as the empty string. */
  function Text(v: Option<Value>, p: Predicates): (t: string)
    ensures v.None? || v == Some(Null) ==> t == ""
    ensures v.Some? && v.value.Str? ==> t == v.value.s
  {
    match v
    case None => ""
    case Some(Null) => ""
    case Some(Str(s)) => s
    case Some(Num(x)) => p.numberText(x)
    case Some(Date(source)) => p.dateText(source)
  }

  /** Whether a value passes one check. */
  predicate Passes(c: Check, v: Option<Value>, p: Predicates): (ok: bool)
    ensures c.IsString? ==> (ok <==> v.Some? && v.value.Str?)
    ensures (c.NotEmpty? || (c.IsLength? && c.minLength > 0)) && (v.None? || v == Some(Null)) ==> !ok
    ensures c.IsIn? && v.Some? && v.value.Str? ==> (ok <==> v.value.s in c.options)
    ensures c.IsFloat? && v.Some? && v.value.Num? ==> (ok <==> v.value.x >= c.minValue)
  {
    match c
    case IsString(_) => v.Some? && v.value.Str?
    case NotEmpty(_) => Text(v, p) != ""
    case IsLength(min, _) => |Text(v, p)| >= min
    case IsIn(options, _) => Text(v, p) in options
    case IsFloat(min, _) =>
      (match v
       case Some(Num(x)) => x >= min
       case _ => p.parseFloat(Text(v, p)).Some? && p.parseFloat(Text(v, p)).value >= min)
    case IsEmail(_) => p.isEmail(Text(v, p))
    case IsISO8601(_) => p.isISO8601(Text(v, p))
  }

  /** The failures of one value against a chain of checks: every check runs
      (no bail), and each failing one contributes its message, in order. */
  function CheckFailures(field: string, checks: seq<Check>, v: Option<Value>, p: Predicates): (r: seq<Failure>)
    ensures |r| <= |checks|
    ensures forall f :: f in r ==> f.path == field
    ensures forall i :: 0 <= i < |checks| && !Passes(checks[i], v, p) ==> Failure(field, checks[i].msg) in r
    ensures (forall i :: 0 <= i < |checks| ==> Passes(checks[i], v, p)) <==> r == []
    ensures forall f :: f in r ==> exists i :: 0 <= i < |checks| && !Passes(checks[i], v, p) && f == Failure(field, checks[i].msg)
  {
    if checks == [] then []
    else
      var head := if Passes(checks[0], v, p) then [] else [Failure(field, checks[0].msg)];
      var tail := CheckFailures(field, checks[1..], v, p);
      assert forall i :: 1 <= i < |checks| ==> checks[i] == checks[1..][i - 1];
      assert forall f :: f in tail ==> exists i :: 0 <= i < |checks| && !Passes(checks[i], v, p) && f == Failure(field, checks[i].msg) by {
        forall f | f in tail ensures exists i :: 0 <= i < |checks| && !Passes(checks[i], v, p) && f == Failure(field, checks[i].msg) {
          var j :| 0 <= j < |checks[1..]| && !Passes(checks[1..][j], v, p) && f == Failure(field, checks[1..][j].msg);
          assert checks[j + 1] == checks[1..][j];
        }
      }
      head + tail
  }

  /** The chain's failures split along the chain, and a single check
      contributes its message exactly when it fails: together these fix the
      result as one entry per failing check, in check order. */
  lemma {:induction false} CheckFailuresSplit(field: string, c1: seq<Check>, c2: seq<Check>, v: Option<Value>, p: Predicates)
    ensures CheckFailures(field, c1 + c2, v, p) == CheckFailures(field, c1, v, p) + CheckFailures(field, c2, v, p)
    ensures |c1| == 1 ==> CheckFailures(field, c1, v, p) == if Passes(c1[0], v, p) then [] else [Failure(field, c1[0].msg)]
    decreases |c1|
  {
    if c1 != [] {
      var c := c1 + c2;
      assert c[0] == c1[0] && c[1..] == c1[1..] + c2;
      var head := if Passes(c1[0], v, p) then [] else [Failure(field, c1[0].msg)];
      var rest, tail := CheckFailures(field, c1[1..], v, p), CheckFailures(field, c2, v, p);
      assert CheckFailures(field, c, v, p) == head + CheckFailures(field, c[1..], v, p);
      assert CheckFailures(field, c1, v, p) == head + rest;
      CheckFailuresSplit(field, c1[1..], c2, v, p);
      ConcatAssoc(head, rest, tail);
      if |c1| == 1 {
        assert c1[1..] == [];
      }
    } else {
      assert c1 + c2 == c2;
    }
  }

  /** The failures one field's chain records. */
  function ChainFailures(rules: FieldRules, args: Args, p: Predicates): (r: seq<Failure>)
    ensures rules.optional && rules.field !in args ==> r == []
    ensures !rules.optional || rules.field in args ==>
              (r == [] <==> forall i :: 0 <= i < |rules.checks| ==> Passes(rules.checks[i], Lookup(args, rules.field), p))
  {
    if rules.optional && rules.field !in args then []
    else CheckFailures(rules.field, rules.checks, Lookup(args, rules.field), p)
  }

  /** Everything recorded on the request after the chains of `schema` ran in
      order: the concatenation of their failures. */
  function Failures(schema: Schema, args: Args, p: Predicates): (r: seq<Failure>)
  {
    if schema == [] then []
    else Failures(schema[..|schema| - 1], args, p) + ChainFailures(schema[|schema| - 1], args, p)
  }

  /** The `{field, message}` entries of the thrown error, one per failure. */
  function Details(failures: seq<Failure>): (r: seq<ErrorDetail>)
    ensures |r| == |failures|
    ensures forall k :: 0 <= k < |failures| ==> r[k] == ErrorDetail(failures[k].path, failures[k].msg)
  {
    if failures == [] then []
    else Details(failures[..|failures| - 1]) + [ErrorDetail(failures[|failures| - 1].path, failures[|failures| - 1].msg)]
  }

  /** The error `validateArgs` throws. */
  function ValidationError(details: seq<ErrorDetail>): Exception {
    Exception("Validation failed", StrCode(Errors.ValidationCode), Some(details), [])
  }

  /** What `validateArgs` does, as a value: None when it returns normally,
      Some(error) when it throws. */
  function Validation(schema: Schema, args: Args, p: Predicates): (r: Option<Exception>)
    ensures r.None? <==> Failures(schema, args, p) == []
    ensures r.Some? ==> r.value.code == StrCode(Errors.ValidationCode) && r.value.details == Some(Details(Failures(schema, args, p)))
  {
    var failures := Failures(schema, args, p);
    if failures == [] then None else Some(ValidationError(Details(failures)))
  }

  /** `validateArgs`: run every field's chain against one shared request,
      then throw when anything was recorded. */
  method ValidateArgs(schema: Schema, args: Args, p: Predicates) returns (thrown: Option<Exception>)
    ensures thrown == Validation(schema, args, p)
    ensures thrown.None? <==> Failures(schema, args, p) == []
  {
    var recorded: seq<Failure> := [];
    for i := 0 to |schema|
      invariant recorded == Failures(schema[..i], args, p)
    {
      assert schema[..i + 1][..i] == schema[..i];
      recorded := recorded + ChainFailures(schema[i], args, p);
    }
    assert schema[..|schema|] == schema;
    if recorded == [] {
      thrown := None;
    } else {
      var details := Details(recorded);
      thrown := Some(ValidationError(details));
    }
  }

  /** Running two tables one after the other records the failures of the
      first followed by those of the second. */
  lemma {:induction false} FailuresAppend(a: Schema, b: Schema, args: Args, p: Predicates)
    ensures Failures(a + b, args, p) == Failures(a, args, p) + Failures(b, args, p)
    decreases |b|
  {
    if b == [] {
      assert a + b == a;
    } else {
      var init, last := b[..|b| - 1], b[|b| - 1];
      var fb, fi, fl := Failures(b, args, p), Failures(init, args, p), ChainFailures(last, args, p);
      assert fb == fi + fl;
      var ab := a + b;
      assert ab[..|ab| - 1] == a + init && ab[|ab| - 1] == last;
      var fab, fai := Failures(ab, args, p), Failures(a + init, args, p);
      assert fab == fai + fl;
      FailuresAppend(a, init, args, p);
      var fa := Failures(a, args, p);
      ConcatAssoc(fa, fi, fl);
    }
  }

  /** Nothing is recorded exactly when every field's chain records nothing. */
  lemma {:induction false} NoFailuresIff(schema: Schema, args: Args, p: Predicates)
    ensures Failures(schema, args, p) == [] <==> forall j :: 0 <= j < |schema| ==> ChainFailures(schema[j], args, p) == []
    decreases |schema|
  {
    if schema != [] {
      var init := schema[..|schema| - 1];
      NoFailuresIff(init, args, p);
      assert forall j :: 0 <= j < |init| ==> init[j] == schema[j];
    }
  }

  /** Adding one more field's chain to a table adds its failures at the end. */
  lemma FailuresSnoc(schema: Schema, rules: FieldRules, args: Args, p: Predicates)
    ensures Failures(schema + [rules], args, p) == Failures(schema, args, p) + ChainFailures(rules, args, p)
  {
    assert (schema + [rules])[..|schema|] == schema;
  }

  lemma ConcatAssoc(x: seq<Failure>, y: seq<Failure>, z: seq<Failure>)
    ensures (x + y) + z == x + (y + z)
  {
  }

  /** No fail-fast across fields: every check that fails on a field whose
      chain runs is reported, whatever happened to the other fields. */
  lemma {:induction false} EveryFailureReported(schema: Schema, args: Args, p: Predicates, i: nat, k: nat)
    requires i < |schema| && k < |schema[i].checks|
    requires !schema[i].optional || schema[i].field in args
    requires !Passes(schema[i].checks[k], Lookup(args, schema[i].field), p)
    ensures Failure(schema[i].field, schema[i].checks[k].msg) in Failures(schema, args, p)
  {
    assert schema == schema[..i] + [schema[i]] + schema[i + 1..];
    FailuresAppend(schema[..i] + [schema[i]], schema[i + 1..], args, p);
    FailuresAppend(schema[..i], [schema[i]], args, p);
    assert [schema[i]][..0] == [];
  }

  /** Everything reported comes from a failing check of a field of the
      table whose chain ran, and carries that check's message. */
  lemma {:induction false} FailuresFromSchema(schema: Schema, args: Args, p: Predicates, f: Failure)
    requires f in Failures(schema, args, p)
    ensures exists i, k :: 0 <= i < |schema| && 0 <= k < |schema[i].checks| && schema[i].field == f.path
              && (!schema[i].optional || schema[i].field in args)
              && !Passes(schema[i].checks[k], Lookup(args, schema[i].field), p) && f.msg == schema[i].checks[k].msg
    decreases |schema|
  {
    var init := schema[..|schema| - 1];
    var i := |schema| - 1;
    if f in Failures(init, args, p) {
      FailuresFromSchema(init, args, p, f);
      var j, k :| 0 <= j < |init| && 0 <= k < |init[j].checks| && init[j].field == f.path
              && (!init[j].optional || init[j].field in args)
              && !Passes(init[j].checks[k], Lookup(args, init[j].field), p) && f.msg == init[j].checks[k].msg;
      assert schema[j] == init[j];
    } else {
      assert f in ChainFailures(schema[i], args, p);
      var k :| 0 <= k < |schema[i].checks| && !Passes(schema[i].checks[k], Lookup(args, schema[i].field), p)
              && f == Failure(schema[i].field, schema[i].checks[k].msg);
    }
  }

  /** The thrown error is tagged VALIDATION_ERROR, says "Validation failed",
      and its details are the failures in order, one entry each. */
  lemma ThrownShape(schema: Schema, args: Args, p: Predicates)
    requires Validation(schema, args, p).Some?
    ensures var e := Validation(schema, args, p).value;
      && e.message == "Validation failed"
      && e.code == StrCode("VALIDATION_ERROR")
      && e.details.Some?
      && |e.details.value| == |Failures(schema, args, p)| > 0
      && forall k :: 0 <= k < |Failures(schema, args, p)| ==>
           e.details.value[k] == ErrorDetail(Failures(schema, args, p)[k].path, Failures(schema, args, p)[k].msg)
  {
  }

  /** The resolvers' classifier hands the thrown details back unchanged, so a
      validation failure reaches the payload exactly as recorded. */
  lemma ClassifiedVerbatim(schema: Schema, args: Args, p: Predicates)
    requires Validation(schema, args, p).Some?
    ensures Errors.ToErrorDetails(Validation(schema, args, p).value) == Details(Failures(schema, args, p))
    ensures Errors.ToErrorDetails(Validation(schema, args, p).value) != []
  {
  }
}
