/**
 * The constraint engine: exact values or `max` / `min` / `in` / `not_in` on top-level fields, a validity
 * test, and `intersect`, which narrows.
 */
module Constraints {
  import opened Common

  datatype Scalar = Text(text: string) | Number(number: real) | Flag(flag: bool)

  /** A supplied argument: a scalar, an object or array (never equal to a scalar), or missing. */
  datatype Value = Scalar(scalar: Scalar) | Composite | Missing

  /** `unknown` are the keys of an operator object outside the four the engine knows. */
  datatype Constraint =
    | Exact(value: Scalar)
    | Operators(max: Option<real>, min: Option<real>, among: Option<seq<Scalar>>, notAmong: Option<seq<Scalar>>,
                unknown: set<string>)

  type Record = map<string, Constraint>

  type Args = map<string, Value>

  datatype Error = UnknownOperator(field: string) | Conflict(field: string)

  datatype Violation = Violation(field: string, constraint: Constraint, actual: Value)

  // ---------------------------------------------------------------- one field

  predicate Known(c: Constraint) {
    c.Operators? ==> c.unknown == {}
  }

  predicate AtMost(v: Value, bound: real) {
    v.Scalar? && v.scalar.Number? && v.scalar.number <= bound
  }

  predicate AtLeast(v: Value, bound: real) {
    v.Scalar? && v.scalar.Number? && v.scalar.number >= bound
  }

  predicate Includes(list: seq<Scalar>, v: Value) {
    v.Scalar? && v.scalar in list
  }

  predicate Satisfies(c: Constraint, v: Value) {
    match c
    case Exact(e) => v == Scalar(e)
    case Operators(max, min, among, notAmong, _) =>
      && (max.Some? ==> AtMost(v, max.value))
      && (min.Some? ==> AtLeast(v, min.value))
      && (among.Some? ==> Includes(among.value, v))
      && (notAmong.Some? ==> !Includes(notAmong.value, v))
  }

  function Tighter(a: Option<real>, b: Option<real>, pickFirst: (real, real) -> bool): Option<real> {
    if a.None? then b
    else if b.None? then a
    else Some(if pickFirst(a.value, b.value) then a.value else b.value)
  }

  function Filter(xs: seq<Scalar>, ys: seq<Scalar>): (zs: seq<Scalar>)
    ensures forall x :: x in zs <==> x in xs && x in ys
  {
    if xs == [] then [] else (if xs[0] in ys then [xs[0]] else []) + Filter(xs[1..], ys)
  }

  function Distinct(xs: seq<Scalar>): (zs: seq<Scalar>)
    ensures forall x :: x in zs <==> x in xs
    ensures forall i, j :: 0 <= i < j < |zs| ==> zs[i] != zs[j]
  {
    if xs == [] then []
    else
      var init := Distinct(xs[..|xs| - 1]);
      if xs[|xs| - 1] in init then init else init + [xs[|xs| - 1]]
  }

  function OrEmpty(xs: Option<seq<Scalar>>): seq<Scalar> {
    if xs.Some? then xs.value else []
  }

  /** Two operator objects combine to the narrower of each operator. */
  function Merge(a: Constraint, b: Constraint): Constraint
    requires a.Operators? && b.Operators?
  {
    var among := if a.among.Some? && b.among.Some? then Some(Filter(a.among.value, b.among.value))
                 else if a.among.Some? then a.among else b.among;
    var excluded := OrEmpty(a.notAmong) + OrEmpty(b.notAmong);
    Operators(Tighter(a.max, b.max, (x, y) => x <= y), Tighter(a.min, b.min, (x, y) => x >= y), among,
              if |excluded| > 0 then Some(Distinct(excluded)) else None, {})
  }

  function IntersectField(field: string, a: Constraint, b: Constraint): Result<Constraint, Error> {
    if !Known(a) || !Known(b) then Err(UnknownOperator(field))
    else if a.Exact? && b.Exact? then if a == b then Ok(a) else Err(Conflict(field))
    else if a.Exact? then if Satisfies(b, Scalar(a.value)) then Ok(a) else Err(Conflict(field))
    else if b.Exact? then if Satisfies(a, Scalar(b.value)) then Ok(b) else Err(Conflict(field))
    else Ok(Merge(a, b))
  }

  /** One of the two is an exact value the other does not admit. */
  predicate Clash(a: Constraint, b: Constraint) {
    || (a.Exact? && !Satisfies(b, Scalar(a.value)))
    || (b.Exact? && !Satisfies(a, Scalar(b.value)))
  }

  /** An operator object with a key the engine does not know. */
  predicate HasUnknown(c: Constraint) {
    c.Operators? && c.unknown != {}
  }

  /** On one field `intersect` is the exact meet, and it refuses exactly on an unknown operator or on a clash. */
  lemma FieldMeet(field: string, a: Constraint, b: Constraint)
    ensures HasUnknown(a) || HasUnknown(b) <==> IntersectField(field, a, b) == Err(UnknownOperator(field))
    ensures !HasUnknown(a) && !HasUnknown(b) ==>
              && (IntersectField(field, a, b).Err? <==> Clash(a, b))
              && (Clash(a, b) ==> IntersectField(field, a, b) == Err(Conflict(field)))
    ensures Clash(a, b) ==> forall v :: !(Satisfies(a, v) && Satisfies(b, v))
    ensures !HasUnknown(a) && !HasUnknown(b) && !Clash(a, b) ==>
              var c := IntersectField(field, a, b).value;
              && Known(c)
              && (c.Exact? <==> a.Exact? || b.Exact?)
              && (forall v :: Satisfies(c, v) <==> Satisfies(a, v) && Satisfies(b, v))
  {
    if a.Operators? && b.Operators? {
      MergeIsMeet(a, b);
    }
  }

  lemma MergeIsMeet(a: Constraint, b: Constraint)
    requires a.Operators? && b.Operators?
    ensures forall v :: Satisfies(Merge(a, b), v) <==> Satisfies(a, v) && Satisfies(b, v)
  {
    var c := Merge(a, b);
    var excluded := OrEmpty(a.notAmong) + OrEmpty(b.notAmong);
    forall v ensures Satisfies(c, v) <==> Satisfies(a, v) && Satisfies(b, v) {
      assert Includes(excluded, v) <==> Includes(OrEmpty(a.notAmong), v) || Includes(OrEmpty(b.notAmong), v);
      assert c.notAmong.Some? ==> (Includes(c.notAmong.value, v) <==> Includes(excluded, v));
    }
  }

  // ---------------------------------------------------------------- records

  predicate AllKnown(r: Record) {
    forall f :: f in r ==> Known(r[f])
  }

  function ValueOf(args: Args, field: string): Value {
    if field in args then args[field] else Missing
  }

  /** The arguments meet every constraint of the record. */
  predicate Valid(r: Record, args: Args) {
    forall f :: f in r ==> Satisfies(r[f], ValueOf(args, f))
  }

  /** The field holds this scalar. */
  predicate Holds(args: Args, field: string, s: Scalar) {
    field in args && args[field] == Value.Scalar(s)
  }

  /**
   * What one constraint says of the arguments. An exact value is that very scalar; `max` and `min` want a number,
   * and `in` a scalar of the list, so that a missing field fails all of these; only `not_in` is content with one.
   */
  ghost predicate Obeyed(c: Constraint, args: Args, field: string) {
    match c
    case Exact(value) => Holds(args, field, value)
    case Operators(max, min, among, notAmong, _) =>
      && (max.Some? ==> exists x :: x <= max.value && Holds(args, field, Number(x)))
      && (min.Some? ==> exists x :: min.value <= x && Holds(args, field, Number(x)))
      && (among.Some? ==> exists s :: s in among.value && Holds(args, field, s))
      && (notAmong.Some? ==> !exists s :: s in notAmong.value && Holds(args, field, s))
  }

  lemma FieldIsObeyed(c: Constraint, args: Args, field: string)
    ensures Satisfies(c, ValueOf(args, field)) <==> Obeyed(c, args, field)
  {
    var v := ValueOf(args, field);
    if v.Scalar? {
      assert Holds(args, field, v.scalar);
      if v.scalar.Number? {
        assert Holds(args, field, Number(v.scalar.number));
      }
    }
  }

  /** Arguments are valid exactly when every constraint is obeyed. */
  lemma ValidExactlyWhen(r: Record, args: Args)
    ensures Valid(r, args) <==> forall f :: f in r ==> Obeyed(r[f], args, f)
  {
    forall f | f in r ensures Satisfies(r[f], ValueOf(args, f)) <==> Obeyed(r[f], args, f) {
      FieldIsObeyed(r[f], args, f);
    }
  }

  function FieldOf(a: Record, b: Record, f: string): Result<Constraint, Error>
    requires f in a || f in b
  {
    if f !in a then Ok(b[f]) else if f !in b then Ok(a[f]) else IntersectField(f, a[f], b[f])
  }

  predicate Refused(a: Record, b: Record, f: string) {
    f in a && f in b && IntersectField(f, a[f], b[f]).Err?
  }

  /** What the engine builds when no field refuses. */
  function Met(a: Record, b: Record): Record
    requires forall f :: !Refused(a, b, f)
  {
    map f | f in a.Keys + b.Keys :: assert !Refused(a, b, f); FieldOf(a, b, f).value
  }

  class ConstraintEngine {
    constructor () {
    }

    /** Every violating field is reported once, unless some constraint uses an unknown operator. */
    method Validate(constraints: Record, args: Args) returns (r: Result<seq<Violation>, Error>)
      ensures r.Err? <==> exists f :: f in constraints && HasUnknown(constraints[f])
      ensures r.Err? ==> r.error.UnknownOperator? && r.error.field in constraints && !Known(constraints[r.error.field])
      ensures r.Err? <==> !AllKnown(constraints)
      ensures r.Ok? ==> (r.value == [] <==> Valid(constraints, args))
      ensures r.Ok? ==> (r.value == [] <==> forall f :: f in constraints ==> Obeyed(constraints[f], args, f))
      ensures r.Ok? ==> forall v :: v in r.value <==>
                && v.field in constraints && v.constraint == constraints[v.field] && v.actual == ValueOf(args, v.field)
                && !Satisfies(v.constraint, v.actual)
      ensures r.Ok? ==> forall i, j :: 0 <= i < j < |r.value| ==> r.value[i].field != r.value[j].field
    {
      var violations: seq<Violation> := [];
      var todo := constraints.Keys;
      while todo != {}
        invariant todo <= constraints.Keys
        invariant forall f :: f in constraints && f !in todo ==> Known(constraints[f])
        invariant forall v :: v in violations <==>
                    && v.field in constraints && v.field !in todo && v.constraint == constraints[v.field]
                    && v.actual == ValueOf(args, v.field) && !Satisfies(v.constraint, v.actual)
        invariant forall i, j :: 0 <= i < j < |violations| ==> violations[i].field != violations[j].field
      {
        var field :| field in todo;
        if !Known(constraints[field]) {
          return Err(UnknownOperator(field));
        }
        if !Satisfies(constraints[field], ValueOf(args, field)) {
          assert forall i :: 0 <= i < |violations| ==> violations[i] in violations;
          violations := violations + [Violation(field, constraints[field], ValueOf(args, field))];
        }
        todo := todo - {field};
      }
      if violations != [] {
        assert violations[0] in violations;
      }
      forall f | f in constraints && !Satisfies(constraints[f], ValueOf(args, f)) ensures violations != [] {
        assert Violation(f, constraints[f], ValueOf(args, f)) in violations;
      }
      ValidExactlyWhen(constraints, args);
      return Ok(violations);
    }

    method Intersect(a: Record, b: Record) returns (r: Result<Record, Error>)
      ensures r.Err? <==> exists f :: Refused(a, b, f)
      ensures r.Err? ==> Refused(a, b, r.error.field) && r == Err(FieldOf(a, b, r.error.field).error)
      ensures r.Ok? ==> r.value == Met(a, b) && r.value.Keys == a.Keys + b.Keys
      ensures r.Ok? ==> forall f :: f in a && f !in b ==> r.value[f] == a[f]
      ensures r.Ok? ==> forall f :: f in b && f !in a ==> r.value[f] == b[f]
    {
      var out: Record := map[];
      var fields := a.Keys + b.Keys;
      var todo := fields;
      while todo != {}
        invariant todo <= fields
        invariant forall f :: f in fields - todo ==> !Refused(a, b, f)
        invariant out.Keys == fields - todo
        invariant forall f :: f in out ==> FieldOf(a, b, f) == Ok(out[f])
      {
        var field :| field in todo;
        if field !in a {
          out := out[field := b[field]];
        } else if field !in b {
          out := out[field := a[field]];
        } else {
          var merged := IntersectField(field, a[field], b[field]);
          if merged.Err? {
            assert Refused(a, b, field);
            return Err(merged.error);
          }
          out := out[field := merged.value];
        }
        todo := todo - {field};
      }
      return Ok(out);
    }
  }

  /** `intersect` as a function: `None` stands for a refusal. */
  ghost function Intersect(a: Record, b: Record): Option<Record> {
    if exists f :: Refused(a, b, f) then None else Some(Met(a, b))
  }

  /** Exact meet of records: valid under the result iff under both; a refusal means nothing is valid under both. */
  lemma RecordMeet(a: Record, b: Record, args: Args)
    requires AllKnown(a) && AllKnown(b)
    ensures Intersect(a, b).Some? ==> (Valid(Intersect(a, b).value, args) <==> Valid(a, args) && Valid(b, args))
    ensures Intersect(a, b).None? ==> !(Valid(a, args) && Valid(b, args))
  {
    if Intersect(a, b).None? {
      var f :| Refused(a, b, f);
      FieldMeet(f, a[f], b[f]);
    } else {
      var c := Met(a, b);
      forall f | f in a && f in b
        ensures Satisfies(c[f], ValueOf(args, f)) <==>
                Satisfies(a[f], ValueOf(args, f)) && Satisfies(b[f], ValueOf(args, f))
      {
        assert !Refused(a, b, f);
        FieldMeet(f, a[f], b[f]);
      }
      if Valid(c, args) {
        forall f | f in a ensures Satisfies(a[f], ValueOf(args, f)) { assert f in c; }
        forall f | f in b ensures Satisfies(b[f], ValueOf(args, f)) { assert f in c; }
      }
    }
  }

  // ---------------------------------------------------------------- any order, any bracketing

  /** A way of folding constraint sets together. */
  datatype Fold = Leaf(record: Record) | Node(left: Fold, right: Fold)

  function Leaves(t: Fold): set<Record> {
    match t
    case Leaf(r) => {r}
    case Node(l, r) => Leaves(l) + Leaves(r)
  }

  ghost function Eval(t: Fold): Option<Record> {
    match t
    case Leaf(r) => Some(r)
    case Node(l, r) =>
      var (a, b) := (Eval(l), Eval(r));
      if a.None? || b.None? then None else Intersect(a.value, b.value)
  }

  /** One record pins field `f` to a value that another does not admit there. */
  predicate ClashAt(x: Record, y: Record, f: string) {
    f in x && f in y && x[f].Exact? && !Satisfies(y[f], Scalar(x[f].value))
  }

  ghost predicate Clashing(xs: set<Record>) {
    exists x, y, f :: x in xs && y in xs && ClashAt(x, y, f)
  }

  /** `r` says on every field what all of `xs` say together. */
  ghost predicate Stands(r: Record, xs: set<Record>) {
    && AllKnown(r)
    && (forall f :: f in r <==> exists x: Record :: x in xs && f in x)
    && (forall f, v :: f in r ==>
          (Satisfies(r[f], v) <==> forall x: Record :: x in xs && f in x ==> Satisfies(x[f], v)))
    && (forall f, x: Record :: x in xs && f in x && x[f].Exact? ==> f in r && r[f] == x[f])
    && (forall f :: f in r && r[f].Exact? ==> exists x: Record :: x in xs && f in x && x[f] == r[f])
  }

  /** A refusal on `f` comes from a clash on `f` between two of the records behind. */
  lemma RefusalClashes(a: Record, b: Record, xs: set<Record>, ys: set<Record>, f: string)
    requires Stands(a, xs) && Stands(b, ys) && Refused(a, b, f)
    ensures Clashing(xs + ys)
  {
    FieldMeet(f, a[f], b[f]);
    if a[f].Exact? && !Satisfies(b[f], Scalar(a[f].value)) {
      var x: Record :| x in xs && f in x && x[f] == a[f];
      var y: Record :| y in ys && f in y && !Satisfies(y[f], Scalar(x[f].value));
      assert ClashAt(x, y, f);
    } else {
      var y: Record :| y in ys && f in y && y[f] == b[f];
      var x: Record :| x in xs && f in x && !Satisfies(x[f], Scalar(y[f].value));
      assert ClashAt(y, x, f);
    }
  }

  lemma ClashRefuses(a: Record, b: Record, x: Record, y: Record, xs: set<Record>, ys: set<Record>, f: string)
    requires Stands(a, xs) && Stands(b, ys) && ClashAt(x, y, f)
    requires (x in xs && y in ys) || (x in ys && y in xs)
    ensures Refused(a, b, f)
  {
    assert f in a && f in b;
    FieldMeet(f, a[f], b[f]);
  }

  /** Two stand-ins refuse each other iff some pair of the records behind them clashes. */
  lemma RefusalIsAClash(a: Record, b: Record, xs: set<Record>, ys: set<Record>)
    requires Stands(a, xs) && Stands(b, ys) && !Clashing(xs) && !Clashing(ys)
    ensures Intersect(a, b).None? <==> Clashing(xs + ys)
  {
    if f :| Refused(a, b, f) {
      RefusalClashes(a, b, xs, ys, f);
    }
    if x, y, f :| x in xs + ys && y in xs + ys && ClashAt(x, y, f) {
      assert !(x in xs && y in xs) && !(x in ys && y in ys);
      ClashRefuses(a, b, x, y, xs, ys, f);
    }
  }

  lemma MetStands(a: Record, b: Record, xs: set<Record>, ys: set<Record>)
    requires Stands(a, xs) && Stands(b, ys) && Intersect(a, b).Some?
    ensures Stands(Met(a, b), xs + ys)
  {
    var c := Met(a, b);
    forall f | f in c
      ensures Known(c[f])
      ensures forall v :: Satisfies(c[f], v) <==> forall x: Record :: x in xs + ys && f in x ==> Satisfies(x[f], v)
      ensures forall x: Record :: x in xs + ys && f in x && x[f].Exact? ==> c[f] == x[f]
      ensures c[f].Exact? ==> exists x: Record :: x in xs + ys && f in x && x[f] == c[f]
    {
      assert !Refused(a, b, f);
      if f in a && f in b {
        FieldMeet(f, a[f], b[f]);
      }
    }
  }

  lemma {:induction false} FoldStands(t: Fold)
    requires forall r :: r in Leaves(t) ==> AllKnown(r)
    ensures Eval(t).None? <==> Clashing(Leaves(t))
    ensures Eval(t).Some? ==> Stands(Eval(t).value, Leaves(t))
  {
    match t
    case Leaf(r) =>
    case Node(l, r) =>
      FoldStands(l);
      FoldStands(r);
      if Eval(l).Some? && Eval(r).Some? {
        RefusalIsAClash(Eval(l).value, Eval(r).value, Leaves(l), Leaves(r));
        if Intersect(Eval(l).value, Eval(r).value).Some? {
          MetStands(Eval(l).value, Eval(r).value, Leaves(l), Leaves(r));
        }
      }
  }

  lemma StandInIsValid(r: Record, xs: set<Record>, args: Args)
    requires Stands(r, xs)
    ensures Valid(r, args) <==> forall x: Record :: x in xs ==> Valid(x, args)
  {
    if Valid(r, args) {
      forall x | x in xs ensures Valid(x, args) {
        forall f | f in x ensures Satisfies(x[f], ValueOf(args, f)) {
          assert f in r;
        }
      }
    }
  }

  /**
   * Folding constraint sets in any order, with any bracketing and any repetitions gives the same failure or
   * the same meaning: only the set of records folded matters. Commutativity, associativity and idempotence
   * are instances. A fold fails iff two of its records clash on a field, and then no arguments satisfy all.
   */
  lemma AnyOrderAnyBracketing(t: Fold, u: Fold, args: Args)
    requires Leaves(t) == Leaves(u) && forall r :: r in Leaves(t) ==> AllKnown(r)
    ensures Eval(t).None? <==> Eval(u).None?
    ensures Eval(t).None? <==> Clashing(Leaves(t))
    ensures Eval(t).Some? ==> (Valid(Eval(t).value, args) <==> Valid(Eval(u).value, args))
    ensures Eval(t).Some? ==> (Valid(Eval(t).value, args) <==> forall r :: r in Leaves(t) ==> Valid(r, args))
    ensures Eval(t).None? ==> exists r :: r in Leaves(t) && !Valid(r, args)
  {
    FoldStands(t);
    FoldStands(u);
    if Eval(t).Some? {
      StandInIsValid(Eval(t).value, Leaves(t), args);
      StandInIsValid(Eval(u).value, Leaves(u), args);
    } else {
      var x, y, f :| x in Leaves(t) && y in Leaves(t) && ClashAt(x, y, f);
      assert !(Valid(x, args) && Valid(y, args));
    }
  }

  // ---------------------------------------------------------------- when something is admitted

  /** A number in the open interval, where `None` is an open end, that the list does not hold. */
  lemma {:induction false} Between(low: Option<real>, high: Option<real>, avoid: seq<Scalar>) returns (x: real)
    requires low.Some? && high.Some? ==> low.value < high.value
    ensures (low.Some? ==> low.value < x) && (high.Some? ==> x < high.value) && Number(x) !in avoid
    decreases |avoid|
  {
    if avoid == [] {
      x := if low.Some? && high.Some? then (low.value + high.value) / 2.0
           else if low.Some? then low.value + 1.0
           else if high.Some? then high.value - 1.0 else 0.0;
    } else if && avoid[0].Number?
              && (low.Some? ==> low.value < avoid[0].number) && (high.Some? ==> avoid[0].number < high.value) {
      x := Between(Some(avoid[0].number), high, avoid[1..]);
    } else {
      x := Between(low, high, avoid[1..]);
    }
  }

  /**
   * What can be read off a constraint: it is exact, or its `in` list holds a value the rest admits, or there is
   * no such list and the bounds leave room (for one value that is not excluded, when they coincide).
   */
  predicate LeavesRoom(c: Constraint) {
    match c
    case Exact(_) => true
    case Operators(max, min, among, notAmong, _) =>
      if among.Some? then exists i :: 0 <= i < |among.value| && Satisfies(c, Scalar(among.value[i]))
      else max.Some? && min.Some? ==>
        || min.value < max.value
        || (min.value == max.value && Number(max.value) !in OrEmpty(notAmong))
  }

  /** A value the constraint admits, given that it leaves room. */
  lemma Admitted(c: Constraint) returns (v: Value)
    requires LeavesRoom(c)
    ensures Satisfies(c, v)
  {
    match c
    case Exact(e) => v := Scalar(e);
    case Operators(max, min, among, notAmong, _) =>
      if among.Some? {
        var i :| 0 <= i < |among.value| && Satisfies(c, Scalar(among.value[i]));
        v := Scalar(among.value[i]);
      } else if max.None? && min.None? {
        v := Missing;
      } else if max.Some? && min.Some? && min.value == max.value {
        v := Scalar(Number(max.value));
      } else {
        var x := Between(min, max, OrEmpty(notAmong));
        v := Scalar(Number(x));
      }
  }

  /** A constraint admits some value iff it leaves room. */
  lemma AdmitsExactlyWhen(c: Constraint)
    ensures (exists v :: Satisfies(c, v)) <==> LeavesRoom(c)
  {
    if LeavesRoom(c) {
      var v := Admitted(c);
    }
    if v :| Satisfies(c, v) {
      if c.Operators? && c.among.Some? {
        var i :| 0 <= i < |c.among.value| && c.among.value[i] == v.scalar;
        assert Satisfies(c, Scalar(c.among.value[i]));
      }
    }
  }

  /** A record admits some arguments iff every field leaves room. */
  lemma {:induction false} RecordAdmitsExactlyWhen(r: Record)
    ensures (exists args :: Valid(r, args)) <==> forall f :: f in r ==> LeavesRoom(r[f])
  {
    if args :| Valid(r, args) {
      forall f | f in r ensures LeavesRoom(r[f]) {
        AdmitsExactlyWhen(r[f]);
      }
    }
    if forall f :: f in r ==> LeavesRoom(r[f]) {
      var args := Witnesses(r);
      assert Valid(r, args);
    }
  }

  lemma {:induction false} Witnesses(r: Record) returns (args: Args)
    requires forall f :: f in r ==> LeavesRoom(r[f])
    ensures Valid(r, args)
    decreases |r|
  {
    args := map[];
    if r != map[] {
      var f :| f in r;
      var rest := r - {f};
      var others := Witnesses(rest);
      var v := Admitted(r[f]);
      args := others[f := v];
      forall g | g in r ensures Satisfies(r[g], ValueOf(args, g)) {
        assert g != f ==> g in rest && rest[g] == r[g] && ValueOf(args, g) == ValueOf(others, g);
      }
    }
  }

  ghost predicate AllValid(xs: set<Record>, args: Args) {
    forall x: Record :: x in xs ==> Valid(x, args)
  }

  lemma FoldIsValid(t: Fold, args: Args)
    requires (forall r :: r in Leaves(t) ==> AllKnown(r)) && Eval(t).Some?
    ensures Valid(Eval(t).value, args) <==> AllValid(Leaves(t), args)
  {
    AnyOrderAnyBracketing(t, t, args);
  }

  /**
   * Success is not yet room: records that fold without a conflict can be satisfied together iff every field of
   * the folded record leaves room, however they were folded.
   */
  lemma FoldAdmitsExactlyWhen(t: Fold)
    requires (forall r :: r in Leaves(t) ==> AllKnown(r)) && Eval(t).Some?
    ensures (exists args :: AllValid(Leaves(t), args)) <==>
            forall f :: f in Eval(t).value ==> LeavesRoom(Eval(t).value[f])
  {
    var r := Eval(t).value;
    RecordAdmitsExactlyWhen(r);
    if args :| AllValid(Leaves(t), args) {
      FoldIsValid(t, args);
    }
    if args :| Valid(r, args) {
      FoldIsValid(t, args);
    }
  }

  /** So `intersect` detects that two records exclude each other iff they clash or some field is left without room. */
  lemma IntersectLeavesRoomExactlyWhen(a: Record, b: Record)
    requires AllKnown(a) && AllKnown(b)
    ensures (exists args :: Valid(a, args) && Valid(b, args)) <==>
            Intersect(a, b).Some? && forall f :: f in Intersect(a, b).value ==> LeavesRoom(Intersect(a, b).value[f])
  {
    forall args: Args
      ensures Valid(a, args) && Valid(b, args) <==> Intersect(a, b).Some? && Valid(Intersect(a, b).value, args)
    {
      RecordMeet(a, b, args);
    }
    if Intersect(a, b).Some? {
      RecordAdmitsExactlyWhen(Intersect(a, b).value);
    }
  }

  /** Bounds that exclude each other are no conflict: the pair intersects, to a field without room. */
  lemma EmptyRangeIsNotAConflict()
    ensures var low := map["n" := Operators(Some(1.0), None, None, None, {})];
            var high := map["n" := Operators(None, Some(2.0), None, None, {})];
            && Intersect(low, high).Some?
            && forall args :: !Valid(Intersect(low, high).value, args)
  {
    var low := map["n" := Operators(Some(1.0), None, None, None, {})];
    var high := map["n" := Operators(None, Some(2.0), None, None, {})];
    forall f ensures !Refused(low, high, f) {
    }
    forall args ensures !Valid(Intersect(low, high).value, args) {
      RecordMeet(low, high, args);
      assert Valid(low, args) ==> Satisfies(low["n"], ValueOf(args, "n"));
      assert Valid(high, args) ==> Satisfies(high["n"], ValueOf(args, "n"));
    }
  }
}
