/** Function resolution and compilation: overloads, inserted casts and expanded compound functions. */
module FunctionCompile {
  import opened Bytes
  import opened Exprs
  import Datums

  // ----- The registry

  datatype Compound = Compound(name: string, args: seq<CompoundArg>)

  datatype CompoundArg = Nested(inner: Compound) | Input(index: nat)

  datatype FunctionType = ScalarFunction | AggregateFunction | CompoundFunction(body: Compound)

  datatype Definition = Definition(sig: Signature, kind: FunctionType, resolver: Option<seq<DataType> -> DataType>)

  /** The definitions of each name, in the order they were registered. */
  type Registry = map<string, seq<Definition>>

  /** How far apart two types are; none where no implicit cast exists. */
  function DatatypeRank(from: DataType, to: DataType): (r: Option<nat>) {
    if from == to || from == NullType || to == NullType then Some(0)
    else match (from, to)
      case (DecimalType(_, _), DecimalType(_, _)) => Some(0)
      case (IntegerType, BigIntType) => Some(1)
      case (IntegerType, DecimalType(_, _)) => Some(2)
      case (BigIntType, DecimalType(_, _)) => Some(1)
      case (TextType, JsonPathType) => Some(1)
      case _ => None
  }

  function CastFunction(to: DataType): (r: string) {
    match to
    case NullType => ""
    case BooleanType => "to_bool"
    case IntegerType => "to_int"
    case BigIntType => "to_bigint"
    case DecimalType(_, _) => "to_decimal"
    case TextType => "to_text"
    case ByteAType => "to_bytes"
    case JsonType => "to_json"
    case DateType => "to_date"
    case TimestampType => "to_timestamp"
    case JsonPathType => "to_jsonpath"
  }

  function AddRanks(a: Option<nat>, b: Option<nat>): (r: Option<nat>) {
    if a.Some? && b.Some? then Some(a.value + b.value) else None
  }

  function Ranks(from: seq<DataType>, to: seq<DataType>): (r: Option<nat>)
    requires |from| == |to|
  {
    if from == [] then Some(0) else AddRanks(DatatypeRank(from[0], to[0]), Ranks(from[1..], to[1..]))
  }

  /** A definition's rank for argument types; none if it does not apply. */
  function RankOf(d: Definition, args: seq<DataType>): (r: Option<nat>) {
    if |d.sig.args| == |args| then Ranks(args, d.sig.args) else None
  }

  lemma {:induction false} RanksZero(from: seq<DataType>, to: seq<DataType>)
    requires |from| == |to|
    ensures Ranks(from, to) == Some(0) <==> forall i :: 0 <= i < |from| ==> DatatypeRank(from[i], to[i]) == Some(0)
  {
    hide DatatypeRank;
    if from != [] {
      RanksZero(from[1..], to[1..]);
      if Ranks(from, to) == Some(0) {
        forall i | 0 <= i < |from| ensures DatatypeRank(from[i], to[i]) == Some(0) {
          if i > 0 { assert from[1..][i - 1] == from[i] && to[1..][i - 1] == to[i]; }
        }
      }
    }
  }

  lemma {:induction false} RanksSome(from: seq<DataType>, to: seq<DataType>, i: nat)
    requires |from| == |to| && i < |from| && Ranks(from, to).Some?
    ensures DatatypeRank(from[i], to[i]).Some?
  {
    if i > 0 { RanksSome(from[1..], to[1..], i - 1); }
  }

  /** The earliest definition of the lowest rank, as a stable sort by rank puts first. */
  ghost predicate IsBest(ds: seq<Definition>, args: seq<DataType>, i: nat) {
    && i < |ds| && RankOf(ds[i], args).Some?
    && (forall j :: 0 <= j < |ds| && RankOf(ds[j], args).Some? ==>
          RankOf(ds[i], args).value <= RankOf(ds[j], args).value)
    && (forall j :: 0 <= j < i && RankOf(ds[j], args).Some? ==> RankOf(ds[i], args).value < RankOf(ds[j], args).value)
  }

  method BestCandidate(ds: seq<Definition>, args: seq<DataType>) returns (r: Option<nat>)
    ensures r.Some? ==> IsBest(ds, args, r.value)
    ensures r.None? ==> forall j :: 0 <= j < |ds| ==> RankOf(ds[j], args).None?
  {
    hide RankOf;
    r := None;
    var best := 0;
    for i := 0 to |ds|
      invariant r.None? ==> forall j :: 0 <= j < i ==> RankOf(ds[j], args).None?
      invariant r.Some? ==> r.value < i && RankOf(ds[r.value], args) == Some(best)
      invariant r.Some? ==> forall j :: 0 <= j < i && RankOf(ds[j], args).Some? ==> best <= RankOf(ds[j], args).value
      invariant r.Some? ==> forall j :: 0 <= j < r.value && RankOf(ds[j], args).Some? ==>
        best < RankOf(ds[j], args).value
    {
      var rank := RankOf(ds[i], args);
      if rank.Some? && (r.None? || rank.value < best) { r, best := Some(i), rank.value; }
    }
  }

  datatype Resolution =
    | Direct(sig: Signature, definition: Definition)
    | WithCasts(definition: Definition)
    | FunctionNotFound
    | NoMatchingSignature

  function ReturnType(d: Definition, args: seq<DataType>, ret: DataType): (r: DataType) {
    if ret != NullType then ret else match d.resolver case Some(f) => f(args) case None => d.sig.ret
  }

  ghost predicate Resolves(reg: Registry, name: string, args: seq<DataType>, ret: DataType, r: Resolution) {
    if name !in reg then r == FunctionNotFound
    else if forall j :: 0 <= j < |reg[name]| ==> RankOf(reg[name][j], args).None? then r == NoMatchingSignature
    else exists i: nat :: IsBest(reg[name], args, i) && r == Picked(reg[name][i], args, ret)
  }

  function Picked(d: Definition, args: seq<DataType>, ret: DataType): (r: Resolution) {
    if RankOf(d, args) == Some(0) then Direct(Signature(d.sig.name, args, ReturnType(d, args, ret)), d)
    else WithCasts(d)
  }

  method ResolveFunction(reg: Registry, name: string, args: seq<DataType>, ret: DataType) returns (r: Resolution)
    ensures Resolves(reg, name, args, ret, r)
  {
    hide RankOf;
    if name !in reg { return FunctionNotFound; }
    var best := BestCandidate(reg[name], args);
    if best.None? { return NoMatchingSignature; }
    var d := reg[name][best.value];
    assert IsBest(reg[name], args, best.value);
    if RankOf(d, args) == Some(0) {
      return Direct(Signature(d.sig.name, args, ReturnType(d, args, ret)), d);
    }
    return WithCasts(d);
  }

  lemma BestUnique(ds: seq<Definition>, args: seq<DataType>, i: nat, j: nat)
    requires IsBest(ds, args, i) && IsBest(ds, args, j)
    ensures i == j
  {
    hide RankOf;
  }

  ghost predicate Registered(reg: Registry, name: string, d: Definition) {
    name in reg && exists i: nat :: i < |reg[name]| && reg[name][i] == d
  }

  lemma ResolvedAt(reg: Registry, name: string, args: seq<DataType>, ret: DataType, r: Resolution) returns (i: nat)
    requires Resolves(reg, name, args, ret, r) && (r.Direct? || r.WithCasts?)
    ensures name in reg && IsBest(reg[name], args, i) && r == Picked(reg[name][i], args, ret)
    ensures Registered(reg, name, reg[name][i])
  {
    hide RankOf, Picked;
    i :| IsBest(reg[name], args, i) && r == Picked(reg[name][i], args, ret);
    BestInRange(reg[name], args, i);
  }

  /** A type that is asked for is the one that comes back. */
  lemma RequestedType(reg: Registry, name: string, args: seq<DataType>, ret: DataType, r: Resolution)
    requires Resolves(reg, name, args, ret, r) && r.Direct? && ret != NullType
    ensures r.sig.ret == ret && r.sig.args == args
  {
    hide RankOf, Resolves;
    var i := ResolvedAt(reg, name, args, ret, r);
  }

  lemma BestInRange(ds: seq<Definition>, args: seq<DataType>, i: nat)
    requires IsBest(ds, args, i)
    ensures i < |ds|
  {
  }

  /** If some definition takes the arguments as they are, no casts are inserted. */
  lemma DirectIfFits(reg: Registry, name: string, args: seq<DataType>, ret: DataType, j: nat, r: Resolution)
    requires name in reg && j < |reg[name]| && RankOf(reg[name][j], args) == Some(0)
      && Resolves(reg, name, args, ret, r)
    ensures r.Direct?
  {
    hide RankOf, ReturnType, IsBest;
    assert r.Direct? || r.WithCasts?;
    var i := ResolvedAt(reg, name, args, ret, r);
    BestIsZero(reg[name], args, i, j);
  }

  lemma BestIsZero(ds: seq<Definition>, args: seq<DataType>, i: nat, j: nat)
    requires IsBest(ds, args, i) && j < |ds| && RankOf(ds[j], args) == Some(0)
    ensures RankOf(ds[i], args) == Some(0)
  {
    hide RankOf;
  }

  // ----- Expressions before compilation

  datatype Source =
    | Compiled(expr: Expr)
    | FunctionCall(name: string, args: seq<Source>)
    | Cast(inner: Source, ty: DataType)
    | ColumnName(qualifier: Option<string>, alias: string)

  datatype SourceField = SourceField(qualifier: Option<string>, alias: string, ty: DataType)

  function TypesOf(es: seq<Expr>): (r: seq<DataType>)
    ensures |r| == |es| && forall i :: 0 <= i < |es| ==> r[i] == TypeOf(es[i])
  {
    seq(|es|, i requires 0 <= i < |es| => TypeOf(es[i]))
  }

  /** Every call fits a registered signature of its function as it stands, without a cast. */
  ghost predicate Fitted(reg: Registry, e: Expr) {
    match e
    case Call(sig, args) => FitsOne(reg, sig, args, ScalarFunction) && forall i :: 0 <= i < |args| ==>
      Fitted(reg, args[i])
    case Aggregate(sig, args) => FitsOne(reg, sig, args, AggregateFunction) && forall i :: 0 <= i < |args| ==>
      Fitted(reg, args[i])
    case _ => true
  }

  ghost predicate FitsOne(reg: Registry, sig: Signature, args: seq<Expr>, kind: FunctionType) {
    && sig.args == TypesOf(args)
    && exists name, d ::
         Registered(reg, name, d) && d.kind == kind && d.sig.name == sig.name && RankOf(d, sig.args) == Some(0)
  }

  /** The compiled parts of a source expression are fitted already. */
  ghost predicate FittedSource(reg: Registry, s: Source) {
    match s
    case Compiled(e) => Fitted(reg, e)
    case FunctionCall(_, args) => forall i :: 0 <= i < |args| ==> FittedSource(reg, args[i])
    case Cast(inner, _) => FittedSource(reg, inner)
    case ColumnName(_, _) => true
  }

  /** An inserted call of a compound function: its inputs are compiled already. */
  function Assemble(c: Compound, inputs: seq<Expr>): (r: Source) {
    FunctionCall(c.name, seq(|c.args|, i requires 0 <= i < |c.args| => AssembleArg(c.args[i], inputs)))
  }

  function AssembleArg(a: CompoundArg, inputs: seq<Expr>): (r: Source) {
    match a
    case Nested(inner) => Assemble(inner, inputs)
    case Input(i) => Compiled(if i < |inputs| then inputs[i] else Constant(Datums.Null, NullType))
  }

  /** A call with a cast around every argument that needs one. */
  function CastArgs(d: Definition, inputs: seq<Expr>): (r: Source)
    requires |d.sig.args| == |inputs|
  {
    FunctionCall(d.sig.name, seq(|inputs|, i requires 0 <= i < |inputs| =>
      if DatatypeRank(TypeOf(inputs[i]), d.sig.args[i]) == Some(0) then Compiled(inputs[i])
      else FunctionCall(CastFunction(d.sig.args[i]), [Compiled(inputs[i])])))
  }

  // ----- Why compilation ends

  /** The highest name level that calls in an expression have, counted from one. */
  function Height(level: string -> nat, s: Source): (r: nat) {
    match s
    case Compiled(_) => 0
    case FunctionCall(name, args) => Max(level(name) + 1, Heights(level, args))
    case Cast(inner, _) => Height(level, inner)
    case ColumnName(_, _) => 0
  }

  function Heights(level: string -> nat, ss: seq<Source>): (r: nat) {
    if ss == [] then 0 else Max(Height(level, ss[0]), Heights(level, ss[1..]))
  }

  function Max(a: nat, b: nat): (r: nat) { if a < b then b else a }

  lemma {:induction false} HeightsAbove(level: string -> nat, ss: seq<Source>, i: nat)
    requires i < |ss|
    ensures Height(level, ss[i]) <= Heights(level, ss)
  {
    if i > 0 { HeightsAbove(level, ss[1..], i - 1); }
  }

  lemma {:induction false} HeightsBelow(level: string -> nat, ss: seq<Source>, n: nat)
    requires forall i :: 0 <= i < |ss| ==> Height(level, ss[i]) <= n
    ensures Heights(level, ss) <= n
  {
    hide Height;
    if ss != [] { HeightsBelow(level, ss[1..], n); }
  }

  /** The names a compound function calls. */
  predicate Below(level: string -> nat, c: Compound, n: nat) {
    level(c.name) < n && forall i :: 0 <= i < |c.args| ==> ArgBelow(level, c.args[i], n)
  }

  predicate ArgBelow(level: string -> nat, a: CompoundArg, n: nat) {
    a.Nested? ==> Below(level, a.inner, n)
  }

  ghost predicate Widens(from: DataType, to: DataType) {
    DatatypeRank(from, to).Some? && DatatypeRank(from, to) != Some(0)
  }

  /**
   * What makes compilation end: compound functions only call functions of a lower level, the cast
   * functions are lowest, and each implicit cast is registered for exactly the type it starts from.
   */
  ghost predicate Layered(reg: Registry, level: string -> nat) {
    && (forall name, i :: name in reg && 0 <= i < |reg[name]| ==> reg[name][i].sig.name == name)
    && (forall name, i :: name in reg && 0 <= i < |reg[name]| && reg[name][i].kind.CompoundFunction? ==>
          Below(level, reg[name][i].kind.body, level(name)))
    && (forall to :: level(CastFunction(to)) == 0)
    && (forall from, to, r :: Widens(from, to) && Resolves(reg, CastFunction(to), [from], NullType, r) ==>
          CastFits(r, from, to))
  }

  ghost predicate CastFits(r: Resolution, from: DataType, to: DataType) {
    r.Direct? && r.definition.kind.ScalarFunction? && DatatypeRank(r.sig.ret, to) == Some(0)
  }

  lemma {:induction false} AssembleHeight(level: string -> nat, c: Compound, inputs: seq<Expr>, n: nat)
    requires Below(level, c, n)
    ensures Height(level, Assemble(c, inputs)) <= n
    decreases c
  {
    var args := Assemble(c, inputs).args;
    forall i | 0 <= i < |args| ensures Height(level, args[i]) <= n {
      assert ArgBelow(level, c.args[i], n) && args[i] == AssembleArg(c.args[i], inputs);
      if c.args[i].Nested? { AssembleHeight(level, c.args[i].inner, inputs, n); }
    }
    HeightsBelow(level, args, n);
  }

  lemma {:induction false} AssembleFitted(reg: Registry, c: Compound, inputs: seq<Expr>)
    requires forall i :: 0 <= i < |inputs| ==> Fitted(reg, inputs[i])
    ensures FittedSource(reg, Assemble(c, inputs))
    decreases c
  {
    hide Fitted;
    var args := Assemble(c, inputs).args;
    forall i | 0 <= i < |args| ensures FittedSource(reg, args[i]) {
      assert args[i] == AssembleArg(c.args[i], inputs);
      match c.args[i]
      case Nested(inner) => AssembleFitted(reg, inner, inputs);
      case Input(k) => NullFitted(reg);
    }
  }

  lemma NullFitted(reg: Registry)
    ensures Fitted(reg, Constant(Datums.Null, NullType))
  {
  }

  // ----- Compilation

  /** Why this expression is being compiled: it was written, or casts were put around its arguments, or
      it is such a cast. */
  datatype Mode = Written | Casted(index: nat) | Wrapper(to: DataType)

  function ModeRank(mode: Mode): (r: nat) {
    match mode case Written => 2 case Casted(_) => 1 case Wrapper(_) => 0
  }

  ghost predicate IsWrapper(s: Source, to: DataType) {
    && s.FunctionCall? && s.name == CastFunction(to) && |s.args| == 1
    && s.args[0].Compiled? && Widens(TypeOf(s.args[0].expr), to)
  }

  ghost predicate CastedArg(a: Source, to: DataType) {
    if a.Compiled? then DatatypeRank(TypeOf(a.expr), to) == Some(0) else IsWrapper(a, to)
  }

  ghost predicate ModeOk(reg: Registry, s: Source, mode: Mode) {
    match mode
    case Written => true
    case Casted(j) =>
      && s.FunctionCall? && s.name in reg && j < |reg[s.name]| && |s.args| == |reg[s.name][j].sig.args|
      && forall i :: 0 <= i < |s.args| ==> CastedArg(s.args[i], reg[s.name][j].sig.args[i])
    case Wrapper(to) => IsWrapper(s, to)
  }

  /** The mode an argument is compiled in. */
  ghost function ArgMode(reg: Registry, s: Source, mode: Mode, i: nat): (r: Mode)
    requires s.FunctionCall? && ModeOk(reg, s, mode) && i < |s.args|
    ensures ModeOk(reg, s.args[i], r)
  {
    if mode.Casted? && !s.args[i].Compiled? then
      assert CastedArg(s.args[i], reg[s.name][mode.index].sig.args[i]);
      Wrapper(reg[s.name][mode.index].sig.args[i])
    else Written
  }

  lemma ArgSmaller(reg: Registry, level: string -> nat, s: Source, mode: Mode, i: nat)
    requires s.FunctionCall? && ModeOk(reg, s, mode) && i < |s.args| && Layered(reg, level)
    ensures
      var a, m := s.args[i], ArgMode(reg, s, mode, i);
      || Height(level, a) < Height(level, s)
      || (Height(level, a) == Height(level, s) && ModeRank(m) < ModeRank(mode))
      || (Height(level, a) == Height(level, s) && ModeRank(m) == ModeRank(mode))
  {
    HeightsAbove(level, s.args, i);
    if mode.Casted? && !s.args[i].Compiled? {
      var to := reg[s.name][mode.index].sig.args[i];
      assert CastedArg(s.args[i], to);
      WrapperHeight(reg, level, s.args[i], to);
    }
  }

  lemma WrapperHeight(reg: Registry, level: string -> nat, s: Source, to: DataType)
    requires IsWrapper(s, to) && Layered(reg, level)
    ensures Height(level, s) == 1
  {
    assert s.args == [s.args[0]] && s.args[1..] == [];
    assert Heights(level, s.args) == 0;
  }

  /** After the casts, the definition they were inserted for takes the arguments as they are. */
  lemma CastedFits(reg: Registry, s: Source, mode: Mode, es: seq<Expr>, r: Resolution)
    requires ModeOk(reg, s, mode) && mode.Casted? && |es| == |s.args|
    requires forall i :: 0 <= i < |es| ==> DatatypeRank(TypeOf(es[i]), reg[s.name][mode.index].sig.args[i]) == Some(0)
    requires Resolves(reg, s.name, TypesOf(es), NullType, r)
    ensures r.Direct?
  {
    hide DatatypeRank, Resolves;
    RanksZero(TypesOf(es), reg[s.name][mode.index].sig.args);
    DirectIfFits(reg, s.name, TypesOf(es), NullType, mode.index, r);
  }

  lemma CastArgsOk(reg: Registry, level: string -> nat, name: string, es: seq<Expr>, j: nat)
    requires Layered(reg, level) && name in reg && j < |reg[name]| && RankOf(reg[name][j], TypesOf(es)).Some?
    requires forall i :: 0 <= i < |es| ==> Fitted(reg, es[i])
    ensures
      var s := CastArgs(reg[name][j], es);
      ModeOk(reg, s, Casted(j)) && FittedSource(reg, s) && Height(level, s) == level(name) + 1
  {
    hide DatatypeRank, Fitted;
    var d := reg[name][j];
    var s := CastArgs(d, es);
    forall i | 0 <= i < |es|
      ensures CastedArg(s.args[i], d.sig.args[i]) && FittedSource(reg, s.args[i]) && Height(level, s.args[i]) <= 1
    {
      RanksSome(TypesOf(es), d.sig.args, i);
      if !s.args[i].Compiled? { WrapperHeight(reg, level, s.args[i], d.sig.args[i]); }
    }
    HeightsBelow(level, s.args, 1);
  }

  /** What a source expression compiles to: its arguments first, then casts and compound functions expanded and
      compiled in turn. */
  least predicate CompilesTo(reg: Registry, fields: seq<SourceField>, s: Source, e: Expr) {
    match s
    case Compiled(x) => e == x
    case FunctionCall(name, args) =>
      exists es, r ::
        && |es| == |args| && (forall i :: 0 <= i < |args| ==> CompilesTo(reg, fields, args[i], es[i]))
        && Concludes(reg, fields, name, es, r, e)
    case Cast(inner, ty) =>
      exists x, r ::
        && ty != NullType && CompilesTo(reg, fields, inner, x) && Resolves(reg, CastFunction(ty), [TypeOf(x)], ty, r)
        && r.Direct? && r.definition.kind.ScalarFunction? && e == Call(r.sig, [x])
    case ColumnName(qualifier, alias) =>
      && e.Column? && OnlyMatch(fields, qualifier, alias, e.offset) && e.ty == fields[e.offset].ty
  }

  /** What a call with compiled arguments becomes once it is resolved. */
  least predicate Concludes(reg: Registry, fields: seq<SourceField>, name: string, es: seq<Expr>, r: Resolution,
                            e: Expr) {
    && Resolves(reg, name, TypesOf(es), NullType, r)
    && (r.Direct? || r.WithCasts?)
    && (r.Direct? && r.definition.kind.ScalarFunction? ==> e == Call(r.sig, es))
    && (r.Direct? && r.definition.kind.AggregateFunction? ==> e == Aggregate(r.sig, es))
    && (r.Direct? && r.definition.kind.CompoundFunction? ==>
          CompilesTo(reg, fields, Assemble(r.definition.kind.body, es), e))
    && (r.WithCasts? ==> |r.definition.sig.args| == |es| && CompilesTo(reg, fields, CastArgs(r.definition, es), e))
  }

  /** The outcome is exactly what the expression compiles to: nothing when it is an error. */
  ghost predicate Determined(reg: Registry, fields: seq<SourceField>, s: Source, r: Option<Expr>) {
    forall e :: CompilesTo(reg, fields, s, e) <==> r == Some(e)
  }

  /** Exactly one field has the name. */
  ghost predicate OnlyMatch(fields: seq<SourceField>, qualifier: Option<string>, alias: string, i: int) {
    Matching(fields, qualifier, alias, i) && forall j :: Matching(fields, qualifier, alias, j) ==> j == i
  }

  /**
   * Compiles an expression. It always ends, though it re-enters itself on expanded calls, and every
   * call of the result fits a registered signature as it stands.
   */
  method Compile(reg: Registry, ghost level: string -> nat, fields: seq<SourceField>, s: Source, ghost mode: Mode)
    returns (r: Option<Expr>)
    requires Layered(reg, level) && FittedSource(reg, s) && ModeOk(reg, s, mode)
    ensures Determined(reg, fields, s, r) && (r.Some? ==> Fitted(reg, r.value))
    ensures s.Compiled? ==> r == Some(s.expr)
    ensures s.Cast? && r.Some? ==> TypeOf(r.value) == s.ty
    ensures r.Some? && mode.Wrapper? ==> DatatypeRank(TypeOf(r.value), mode.to) == Some(0)
    decreases Height(level, s), ModeRank(mode), s, 2
  {
    hide Layered, DatatypeRank, Fitted;
    match s {
      case Compiled(e) =>
        CompiledDetermined(reg, fields, s);
        r := Some(e);
      case FunctionCall(_, _) => r := CompileCall(reg, level, fields, s, mode);
      case Cast(inner, ty) =>
        var e := Compile(reg, level, fields, inner, Written);
        r := CompileCast(reg, fields, inner, e, ty);
      case ColumnName(qualifier, alias) =>
        r := ResolveColumn(fields, qualifier, alias);
        if r.Some? { ColumnFitted(reg, r.value); }
        ColumnDetermined(reg, fields, s, r);
    }
  }

  lemma ColumnDetermined(reg: Registry, fields: seq<SourceField>, s: Source, r: Option<Expr>)
    requires s.ColumnName? && (r.Some? <==> exists i: nat :: OnlyMatch(fields, s.qualifier, s.alias, i))
    requires r.Some? ==>
      && r.value.Column? && OnlyMatch(fields, s.qualifier, s.alias, r.value.offset)
      && r.value.ty == fields[r.value.offset].ty
    ensures Determined(reg, fields, s, r)
  {
    forall e ensures CompilesTo(reg, fields, s, e) <==> r == Some(e) {
      if CompilesTo(reg, fields, s, e) { assert OnlyMatch(fields, s.qualifier, s.alias, e.offset); }
    }
  }

  lemma CompiledDetermined(reg: Registry, fields: seq<SourceField>, s: Source)
    requires s.Compiled?
    ensures Determined(reg, fields, s, Some(s.expr))
  {
  }

  lemma ResolvesOnce(reg: Registry, name: string, args: seq<DataType>, ret: DataType, a: Resolution, b: Resolution)
    requires Resolves(reg, name, args, ret, a) && Resolves(reg, name, args, ret, b)
    ensures a == b
  {
    hide RankOf, IsBest, ReturnType;
    if a.Direct? || a.WithCasts? {
      var i := ResolvedAt(reg, name, args, ret, a);
      BestRankedSome(reg[name], args, i);
      var j := ResolvedAt(reg, name, args, ret, b);
      BestUnique(reg[name], args, i, j);
    }
  }

  lemma BestRankedSome(ds: seq<Definition>, args: seq<DataType>, i: nat)
    requires IsBest(ds, args, i)
    ensures i < |ds| && RankOf(ds[i], args).Some?
  {
  }

  /** A cast: exactly when its operand compiles and the cast function takes it as it is. */
  lemma CastDetermined(reg: Registry, fields: seq<SourceField>, inner: Source, x: Option<Expr>, ty: DataType,
                       resolved: Resolution, r: Option<Expr>)
    requires Determined(reg, fields, inner, x)
    requires x.Some? && ty != NullType ==> Resolves(reg, CastFunction(ty), [TypeOf(x.value)], ty, resolved)
    requires r == if x.Some? && ty != NullType && resolved.Direct? && resolved.definition.kind.ScalarFunction?
                  then Some(Call(resolved.sig, [x.value])) else None
    ensures Determined(reg, fields, Cast(inner, ty), r)
  {
    hide Resolves, CastFunction;
    var s := Cast(inner, ty);
    forall e ensures CompilesTo(reg, fields, s, e) <==> r == Some(e) {
      if CompilesTo(reg, fields, s, e) {
        var y, q :| && ty != NullType && CompilesTo(reg, fields, inner, y)
          && Resolves(reg, CastFunction(ty), [TypeOf(y)], ty, q)
                    && q.Direct? && q.definition.kind.ScalarFunction? && e == Call(q.sig, [y]);
        assert x == Some(y);
        ResolvesOnce(reg, CastFunction(ty), [TypeOf(y)], ty, q, resolved);
      }
      if r == Some(e) { assert CompilesTo(reg, fields, inner, x.value); }
    }
  }

  /** Each of these results is the only one its argument compiles to. */
  ghost predicate ArgsDetermined(reg: Registry, fields: seq<SourceField>, s: Source, es: seq<Expr>)
    requires s.FunctionCall?
  {
    |es| == |s.args| && forall i :: 0 <= i < |s.args| ==> Determined(reg, fields, s.args[i], Some(es[i]))
  }

  lemma ArgFails(reg: Registry, fields: seq<SourceField>, s: Source, i: nat)
    requires s.FunctionCall? && i < |s.args| && Determined(reg, fields, s.args[i], None)
    ensures Determined(reg, fields, s, None)
  {
    hide Resolves;
    forall e ensures !CompilesTo(reg, fields, s, e) {
      if CompilesTo(reg, fields, s, e) { var es := ArgsOf(reg, fields, s, e); }
    }
  }

  lemma ArgsOf(reg: Registry, fields: seq<SourceField>, s: Source, e: Expr) returns (es: seq<Expr>)
    requires s.FunctionCall? && CompilesTo(reg, fields, s, e)
    ensures |es| == |s.args| && forall i :: 0 <= i < |s.args| ==> CompilesTo(reg, fields, s.args[i], es[i])
    ensures exists r :: Concludes(reg, fields, s.name, es, r, e)
  {
    hide Resolves;
    var es', r :| && |es'| == |s.args| && (forall i :: 0 <= i < |s.args| ==> CompilesTo(reg, fields, s.args[i], es'[i]))
                  && Concludes(reg, fields, s.name, es', r, e);
    es := es';
  }

  lemma CallCompiles(reg: Registry, fields: seq<SourceField>, s: Source, es: seq<Expr>, r: Resolution, e: Expr)
    requires s.FunctionCall? && |es| == |s.args| && (forall i :: 0 <= i < |s.args| ==>
      CompilesTo(reg, fields, s.args[i], es[i]))
    requires Concludes(reg, fields, s.name, es, r, e)
    ensures CompilesTo(reg, fields, s, e)
  {
    hide Resolves;
  }

  /** A call compiles to what its resolution concludes, and to nothing else. */
  lemma CallDetermined(reg: Registry, fields: seq<SourceField>, s: Source, es: seq<Expr>, r: Resolution,
                       out: Option<Expr>)
    requires s.FunctionCall? && ArgsDetermined(reg, fields, s, es) && Resolves(reg, s.name, TypesOf(es), NullType, r)
    requires forall e :: Concludes(reg, fields, s.name, es, r, e) <==> out == Some(e)
    ensures Determined(reg, fields, s, out)
  {
    hide Resolves, Concludes, CompilesTo;
    forall e ensures CompilesTo(reg, fields, s, e) <==> out == Some(e) {
      if CompilesTo(reg, fields, s, e) {
        var fs := ArgsOf(reg, fields, s, e);
        forall i | 0 <= i < |es| ensures es[i] == fs[i] { assert Determined(reg, fields, s.args[i], Some(es[i])); }
        assert fs == es;
        var q :| Concludes(reg, fields, s.name, es, q, e);
        ConcludesResolves(reg, fields, s.name, es, q, e);
        ResolvesOnce(reg, s.name, TypesOf(es), NullType, q, r);
      }
      if out == Some(e) {
        forall i | 0 <= i < |es| ensures CompilesTo(reg, fields, s.args[i], es[i]) {
          assert Determined(reg, fields, s.args[i], Some(es[i]));
        }
        CallCompiles(reg, fields, s, es, r, e);
      }
    }
  }

  lemma NothingConcludes(reg: Registry, fields: seq<SourceField>, s: Source, es: seq<Expr>, r: Resolution)
    requires s.FunctionCall? && ArgsDetermined(reg, fields, s, es) && Resolves(reg, s.name, TypesOf(es), NullType, r)
    requires !r.Direct? && !r.WithCasts?
    ensures Determined(reg, fields, s, None)
  {
    hide Resolves, Determined;
    CallDetermined(reg, fields, s, es, r, None);
  }

  lemma CallConcludes(reg: Registry, fields: seq<SourceField>, s: Source, es: seq<Expr>, r: Resolution, e: Expr)
    requires s.FunctionCall? && ArgsDetermined(reg, fields, s, es) && Resolves(reg, s.name, TypesOf(es), NullType, r)
    requires r.Direct? && !r.definition.kind.CompoundFunction?
    requires e == if r.definition.kind.ScalarFunction? then Call(r.sig, es) else Aggregate(r.sig, es)
    ensures Determined(reg, fields, s, Some(e))
  {
    hide Resolves, Determined;
    CallDetermined(reg, fields, s, es, r, Some(e));
  }

  lemma ExpansionConcludes(reg: Registry, fields: seq<SourceField>, s: Source, es: seq<Expr>, r: Resolution,
                           exploded: Source, out: Option<Expr>)
    requires s.FunctionCall? && ArgsDetermined(reg, fields, s, es) && Resolves(reg, s.name, TypesOf(es), NullType, r)
    requires Determined(reg, fields, exploded, out)
    requires
      || (r.WithCasts? && |r.definition.sig.args| == |es| && exploded == CastArgs(r.definition, es))
      || (r.Direct? && r.definition.kind.CompoundFunction? && exploded == Assemble(r.definition.kind.body, es))
    ensures Determined(reg, fields, s, out)
  {
    hide Resolves;
    CallDetermined(reg, fields, s, es, r, out);
  }

  lemma ConcludesResolves(reg: Registry, fields: seq<SourceField>, name: string, es: seq<Expr>, r: Resolution, e: Expr)
    requires Concludes(reg, fields, name, es, r, e)
    ensures Resolves(reg, name, TypesOf(es), NullType, r)
  {
    hide Resolves;
  }

  lemma ColumnFitted(reg: Registry, e: Expr)
    requires e.Column?
    ensures Fitted(reg, e)
  {
  }

  /** A column is found when exactly one field has its name. */
  method ResolveColumn(fields: seq<SourceField>, qualifier: Option<string>, alias: string) returns (r: Option<Expr>)
    ensures r.Some? <==> exists i :: OnlyMatch(fields, qualifier, alias, i)
    ensures r.Some? ==>
      r.value.Column? && OnlyMatch(fields, qualifier, alias, r.value.offset) && r.value.ty == fields[r.value.offset].ty
  {
    hide Matching;
    var found: seq<nat> := [];
    for i := 0 to |fields|
      invariant forall j :: 0 <= j < |found| ==> found[j] < i && Matching(fields, qualifier, alias, found[j])
      invariant |found| > 1 ==> found[0] != found[1]
      invariant |found| <= 1 ==> forall j :: 0 <= j < i && Matching(fields, qualifier, alias, j) ==> found == [j]
    {
      if Matching(fields, qualifier, alias, i) { found := found + [i]; }
    }
    forall j | Matching(fields, qualifier, alias, j) ensures 0 <= j < |fields| {
      MatchingRange(fields, qualifier, alias, j);
    }
    if |found| == 1 {
      MatchingRange(fields, qualifier, alias, found[0]);
      assert OnlyMatch(fields, qualifier, alias, found[0]);
      return Some(Column(found[0], fields[found[0]].ty));
    }
    return None;
  }

  lemma MatchingRange(fields: seq<SourceField>, qualifier: Option<string>, alias: string, i: int)
    requires Matching(fields, qualifier, alias, i)
    ensures 0 <= i < |fields|
  {
  }

  predicate Matching(fields: seq<SourceField>, qualifier: Option<string>, alias: string, i: int) {
    0 <= i < |fields| && fields[i].alias == alias && (qualifier.Some? ==> fields[i].qualifier == qualifier)
  }

  method CompileCast(reg: Registry, ghost fields: seq<SourceField>, ghost inner: Source, e: Option<Expr>, ty: DataType)
    returns (r: Option<Expr>)
    requires Determined(reg, fields, inner, e) && (e.Some? ==> Fitted(reg, e.value))
    ensures Determined(reg, fields, Cast(inner, ty), r) && (r.Some? ==> Fitted(reg, r.value))
    ensures r.Some? ==> TypeOf(r.value) == ty
  {
    hide DatatypeRank, Resolves, Determined, Fitted, CastFunction;
    if e.None? || ty == NullType {
      CastDetermined(reg, fields, inner, e, ty, FunctionNotFound, None);
      return None;
    }
    var x := e.value;
    var resolved := ResolveFunction(reg, CastFunction(ty), [TypeOf(x)], ty);
    r := None;
    if resolved.Direct? && resolved.definition.kind.ScalarFunction? {
      assert TypesOf([x]) == [TypeOf(x)];
      CallFitted(reg, CastFunction(ty), [x], ty, resolved);
      RequestedType(reg, CastFunction(ty), [TypeOf(x)], ty, resolved);
      r := Some(Call(resolved.sig, [x]));
    }
    CastDetermined(reg, fields, inner, e, ty, resolved, r);
  }

  lemma CallFitted(reg: Registry, name: string, es: seq<Expr>, ret: DataType, resolved: Resolution)
    requires Resolves(reg, name, TypesOf(es), ret, resolved) && resolved.Direct?
    requires forall i :: 0 <= i < |es| ==> Fitted(reg, es[i])
    ensures resolved.definition.kind.ScalarFunction? ==> Fitted(reg, Call(resolved.sig, es))
    ensures resolved.definition.kind.AggregateFunction? ==> Fitted(reg, Aggregate(resolved.sig, es))
    ensures Registered(reg, name, resolved.definition) && resolved.sig.args == TypesOf(es)
  {
    hide RankOf, Resolves;
    var i := ResolvedAt(reg, name, TypesOf(es), ret, resolved);
  }

  /** The arguments' results suit the mode: what the casts were for, and unchanged if compiled before. */
  ghost predicate ArgsSuit(reg: Registry, s: Source, mode: Mode, es: seq<Expr>)
    requires s.FunctionCall? && ModeOk(reg, s, mode)
  {
    && |es| <= |s.args|
    && (forall j :: 0 <= j < |es| && s.args[j].Compiled? ==> es[j] == s.args[j].expr)
    && (mode.Casted? ==> forall j :: 0 <= j < |es| ==>
          DatatypeRank(TypeOf(es[j]), reg[s.name][mode.index].sig.args[j]) == Some(0))
  }

  method CompileArgs(reg: Registry, ghost level: string -> nat, fields: seq<SourceField>, s: Source, ghost mode: Mode)
    returns (r: Option<seq<Expr>>)
    requires Layered(reg, level) && FittedSource(reg, s) && ModeOk(reg, s, mode) && s.FunctionCall?
    ensures r.Some? ==> ArgsDetermined(reg, fields, s, r.value) && ArgsSuit(reg, s, mode, r.value)
    ensures r.None? ==> Determined(reg, fields, s, None)
    ensures r.Some? ==> forall i :: 0 <= i < |r.value| ==> Fitted(reg, r.value[i])
    decreases Height(level, s), ModeRank(mode), s, 0
  {
    hide Layered, DatatypeRank, Fitted, Height, IsWrapper, Determined;
    var es: seq<Expr> := [];
    for i := 0 to |s.args|
      invariant |es| == i && ArgsSuit(reg, s, mode, es)
      invariant forall j :: 0 <= j < i ==> Fitted(reg, es[j]) && Determined(reg, fields, s.args[j], Some(es[j]))
    {
      ArgSmaller(reg, level, s, mode, i);
      ghost var m := ArgMode(reg, s, mode, i);
      if mode.Casted? { assert CastedArg(s.args[i], reg[s.name][mode.index].sig.args[i]); }
      var e := Compile(reg, level, fields, s.args[i], m);
      if e.None? {
        ArgFails(reg, fields, s, i);
        return None;
      }
      es := es + [e.value];
    }
    return Some(es);
  }

  method CompileCall(reg: Registry, ghost level: string -> nat, fields: seq<SourceField>, s: Source, ghost mode: Mode)
    returns (r: Option<Expr>)
    requires Layered(reg, level) && FittedSource(reg, s) && ModeOk(reg, s, mode) && s.FunctionCall?
    ensures Determined(reg, fields, s, r) && (r.Some? ==> Fitted(reg, r.value))
    ensures r.Some? && mode.Wrapper? ==> DatatypeRank(TypeOf(r.value), mode.to) == Some(0)
    decreases Height(level, s), ModeRank(mode), s, 1
  {
    hide Layered, DatatypeRank, Fitted, Resolves, Height, Determined, CastArgs, Assemble;
    var compiled := CompileArgs(reg, level, fields, s, mode);
    if compiled.None? { return None; }
    var es := compiled.value;
    var types := TypesOf(es);
    var resolved := ResolveFunction(reg, s.name, types, NullType);
    if mode.Wrapper? { WrapperResolves(reg, level, s, mode.to, es, resolved); }
    match resolved {
      case FunctionNotFound =>
        NothingConcludes(reg, fields, s, es, resolved);
        return None;
      case NoMatchingSignature =>
        NothingConcludes(reg, fields, s, es, resolved);
        return None;
      case Direct(sig, d) =>
        CallFitted(reg, s.name, es, NullType, resolved);
        match d.kind {
          case ScalarFunction =>
            CallConcludes(reg, fields, s, es, resolved, Call(sig, es));
            return Some(Call(sig, es));
          case AggregateFunction =>
            CallConcludes(reg, fields, s, es, resolved, Aggregate(sig, es));
            return Some(Aggregate(sig, es));
          case CompoundFunction(body) =>
            var exploded := Assemble(body, es);
            CompoundLower(reg, level, s, d, es);
            AssembleFitted(reg, body, es);
            r := Compile(reg, level, fields, exploded, Written);
            ExpansionConcludes(reg, fields, s, es, resolved, exploded, r);
        }
      case WithCasts(d) =>
        if mode.Casted? {
          CastedFits(reg, s, mode, es, resolved);
        }
        ghost var j := ResolvedAt(reg, s.name, types, NullType, resolved);
        BestRanked(reg, s.name, types, j, d, resolved);
        CastArgsOk(reg, level, s.name, es, j);
        CallHeight(level, s);
        r := Compile(reg, level, fields, CastArgs(d, es), Casted(j));
        ExpansionConcludes(reg, fields, s, es, resolved, CastArgs(d, es), r);
    }
  }

  lemma CallHeight(level: string -> nat, s: Source)
    requires s.FunctionCall?
    ensures level(s.name) + 1 <= Height(level, s)
  {
  }

  lemma BestRanked(reg: Registry, name: string, types: seq<DataType>, j: nat, d: Definition, resolved: Resolution)
    requires name in reg && IsBest(reg[name], types, j) && resolved == WithCasts(d)
      && resolved == Picked(reg[name][j], types, NullType)
    ensures d == reg[name][j] && RankOf(d, types).Some? && |d.sig.args| == |types|
  {
  }

  /** An inserted cast resolves to a scalar function at once, and its result is of the wanted type. */
  lemma WrapperResolves(reg: Registry, level: string -> nat, s: Source, to: DataType, es: seq<Expr>,
                        resolved: Resolution)
    requires Layered(reg, level) && IsWrapper(s, to) && |es| == 1 && es[0] == s.args[0].expr
    requires Resolves(reg, s.name, TypesOf(es), NullType, resolved)
    ensures CastFits(resolved, TypeOf(es[0]), to)
  {
    hide DatatypeRank, Resolves;
    assert TypesOf(es) == [TypeOf(es[0])];
  }

  lemma CompoundLower(reg: Registry, level: string -> nat, s: Source, d: Definition, es: seq<Expr>)
    requires Layered(reg, level) && s.FunctionCall? && Registered(reg, s.name, d) && d.kind.CompoundFunction?
    ensures Height(level, Assemble(d.kind.body, es)) < Height(level, s)
  {
    var i: nat :| i < |reg[s.name]| && reg[s.name][i] == d;
    assert Below(level, reg[s.name][i].kind.body, level(s.name));
    AssembleHeight(level, d.kind.body, es, level(s.name));
    CallHeight(level, s);
  }

  // ----- The built-in functions

  function Scalar(name: string, args: seq<DataType>, ret: DataType): (r: Definition) {
    Definition(Signature(name, args, ret), ScalarFunction, None)
  }

  function ToBigInts(): (r: seq<Definition>) {
    [ Scalar("to_bigint", [BooleanType], BigIntType),
      Scalar("to_bigint", [IntegerType], BigIntType),
      Scalar("to_bigint", [BigIntType], BigIntType),
      Scalar("to_bigint", [DecimalType(0, 0)], BigIntType),
      Scalar("to_bigint", [TextType], BigIntType),
      Scalar("to_bigint", [JsonType], BigIntType) ]
  }

  const DECIMAL_MAX_PRECISION := 28
  const DECIMAL_MAX_SCALE := 14

  /** Called as a function, the cast from decimal keeps its argument's type. */
  function FirstType(args: seq<DataType>): (r: DataType) {
    if args == [] then NullType else args[0]
  }

  function ToDecimals(): (r: seq<Definition>) {
    [ Scalar("to_decimal", [BooleanType], DecimalType(1, 0)),
      Scalar("to_decimal", [IntegerType], DecimalType(10, 0)),
      Scalar("to_decimal", [BigIntType], DecimalType(20, 0)),
      Definition(Signature("to_decimal", [DecimalType(0, 0)], DecimalType(0, 0)), ScalarFunction, Some(FirstType)),
      Scalar("to_decimal", [TextType], DecimalType(DECIMAL_MAX_PRECISION, DECIMAL_MAX_SCALE)),
      Scalar("to_decimal", [JsonType], DecimalType(DECIMAL_MAX_PRECISION, DECIMAL_MAX_SCALE)) ]
  }

  function ToJsonPaths(): (r: seq<Definition>) {
    [Scalar("to_jsonpath", [TextType], JsonPathType)]
  }

  /** `->>`: unquote what is extracted at a path given as text. */
  function ExtractUnquote(): (r: Definition) {
    Definition(
      Signature("->>", [JsonType, TextType], TextType),
      CompoundFunction(Compound("json_unquote", [Nested(Compound("json_extract", [Input(0), Input(1)]))])),
      None)
  }

  /** What the built-in registry has of casts that are inserted and of compound functions. Its other
      functions are scalar or aggregate, so nothing more is asked of them. */
  ghost predicate Builtin(reg: Registry) {
    && (forall name, i :: name in reg && 0 <= i < |reg[name]| ==> reg[name][i].sig.name == name)
    && (forall name, i :: name in reg && 0 <= i < |reg[name]| && reg[name][i].kind.CompoundFunction? ==>
          reg[name][i] == ExtractUnquote())
    && "to_bigint" in reg && reg["to_bigint"] == ToBigInts()
    && "to_decimal" in reg && reg["to_decimal"] == ToDecimals()
    && "to_jsonpath" in reg && reg["to_jsonpath"] == ToJsonPaths()
  }

  function Level(name: string): (r: nat) {
    if name == "->>" then 1 else 0
  }

  lemma RankOne(d: Definition, from: DataType)
    requires |d.sig.args| == 1
    ensures RankOf(d, [from]) == DatatypeRank(from, d.sig.args[0])
  {
    hide DatatypeRank;
    assert Ranks([from][1..], d.sig.args[1..]) == Some(0);
  }

  /** A cast with an overload for exactly `from` resolves to a scalar function of the wanted type. */
  lemma CastResolves(reg: Registry, name: string, from: DataType, to: DataType, j: nat, r: Resolution)
    requires name in reg && j < |reg[name]| && Resolves(reg, name, [from], NullType, r)
    requires forall i :: 0 <= i < |reg[name]| ==> |reg[name][i].sig.args| == 1 && reg[name][i].kind.ScalarFunction?
    requires forall i :: 0 <= i < |reg[name]| && DatatypeRank(from, reg[name][i].sig.args[0]) == Some(0) ==>
      reg[name][i].resolver.None? && DatatypeRank(reg[name][i].sig.ret, to) == Some(0)
    requires DatatypeRank(from, reg[name][j].sig.args[0]) == Some(0)
    ensures CastFits(r, from, to)
  {
    hide DatatypeRank, Resolves, RankOf;
    RankOne(reg[name][j], from);
    DirectIfFits(reg, name, [from], NullType, j, r);
    var i := ResolvedAt(reg, name, [from], NullType, r);
    RankOne(reg[name][i], from);
  }

  lemma BuiltinCasts(reg: Registry, from: DataType, to: DataType, r: Resolution)
    requires Builtin(reg) && Widens(from, to) && Resolves(reg, CastFunction(to), [from], NullType, r)
    ensures CastFits(r, from, to)
  {
    hide Resolves, RankOf, CastFits, ExtractUnquote;
    var j := if from == IntegerType then 1 else if from == BigIntType then 2 else 0;
    CastResolves(reg, CastFunction(to), from, to, j, r);
  }

  /** The built-in registry is layered, so compiling against it always ends. */
  lemma BuiltinLayered(reg: Registry)
    requires Builtin(reg)
    ensures Layered(reg, Level)
  {
    hide Resolves, Widens, CastFits;
    forall from, to, r | Widens(from, to) && Resolves(reg, CastFunction(to), [from], NullType, r)
      ensures CastFits(r, from, to)
    {
      BuiltinCasts(reg, from, to, r);
    }
    assert Below(Level, ExtractUnquote().kind.body, 1);
  }

  /** The casts and JSON functions of the built-in registry. */
  function Builtins(): (r: Registry) {
    map[
      "to_bigint" := ToBigInts(),
      "to_decimal" := ToDecimals(),
      "to_jsonpath" := ToJsonPaths(),
      "json_extract" := [JSON_EXTRACT],
      "->" := [Scalar("->", [JsonType, JsonPathType], JsonType)],
      "json_unquote" := [JSON_UNQUOTE],
      "->>" := [ExtractUnquote()] ]
  }

  lemma BuiltinsBuiltin()
    ensures Builtin(Builtins()) && JsonFunctions(Builtins())
  {
  }

  /** A function with one definition resolves to it whenever it applies. */
  lemma OnlyDefinition(reg: Registry, name: string, d: Definition, args: seq<DataType>)
    requires name in reg && reg[name] == [d] && RankOf(d, args).Some?
    ensures Resolves(reg, name, args, NullType, Picked(d, args, NullType))
  {
    hide RankOf, Picked;
    assert IsBest(reg[name], args, 0);
  }

  /** The arguments of a call compile one by one. */
  ghost predicate ArgsCompile(reg: Registry, fields: seq<SourceField>, s: Source, es: seq<Expr>)
    requires s.FunctionCall?
  {
    |es| == |s.args| && forall i :: 0 <= i < |s.args| ==> CompilesTo(reg, fields, s.args[i], es[i])
  }

  lemma ScalarCompiles(reg: Registry, fields: seq<SourceField>, s: Source, d: Definition, es: seq<Expr>)
    requires s.FunctionCall? && s.name in reg && reg[s.name] == [d] && ArgsCompile(reg, fields, s, es)
    requires d.kind.ScalarFunction? && d.resolver.None? && RankOf(d, TypesOf(es)) == Some(0)
    ensures CompilesTo(reg, fields, s, Call(Signature(d.sig.name, TypesOf(es), d.sig.ret), es))
  {
    hide Resolves, RankOf, CompilesTo;
    var r := Picked(d, TypesOf(es), NullType);
    OnlyDefinition(reg, s.name, d, TypesOf(es));
    CallCompiles(reg, fields, s, es, r, Call(r.sig, es));
  }

  lemma ExpandedCompiles(reg: Registry, fields: seq<SourceField>, s: Source, d: Definition, es: seq<Expr>,
                         exploded: Source, e: Expr)
    requires s.FunctionCall? && s.name in reg && reg[s.name] == [d] && ArgsCompile(reg, fields, s, es)
    requires |d.sig.args| == |es| && RankOf(d, TypesOf(es)).Some?
    requires
      || (RankOf(d, TypesOf(es)) != Some(0) && exploded == CastArgs(d, es))
      || (RankOf(d, TypesOf(es)) == Some(0) && d.kind.CompoundFunction? && exploded == Assemble(d.kind.body, es))
    requires CompilesTo(reg, fields, exploded, e)
    ensures CompilesTo(reg, fields, s, e)
  {
    hide Resolves, RankOf, CompilesTo, CastArgs, Assemble;
    var r := Picked(d, TypesOf(es), NullType);
    OnlyDefinition(reg, s.name, d, TypesOf(es));
    CallCompiles(reg, fields, s, es, r, e);
  }

  lemma RankTwo(d: Definition, a: DataType, b: DataType)
    requires |d.sig.args| == 2
    ensures RankOf(d, [a, b]) == AddRanks(DatatypeRank(a, d.sig.args[0]), DatatypeRank(b, d.sig.args[1]))
  {
    hide DatatypeRank;
    var to := d.sig.args;
    assert [a, b][1..] == [b] && to[1..] == [to[1]] && [b][1..] == [] && [to[1]][1..] == [];
    assert Ranks([b], [to[1]]) == AddRanks(DatatypeRank(b, to[1]), Some(0));
  }

  function Extracted(json: Expr, path: Expr): (r: Expr) {
    Call(Signature("json_extract", [JsonType, JsonPathType], JsonType),
         [json, Call(Signature("to_jsonpath", [TextType], JsonPathType), [path])])
  }

  const JSON_EXTRACT := Scalar("json_extract", [JsonType, JsonPathType], JsonType)
  const JSON_UNQUOTE := Scalar("json_unquote", [JsonType], TextType)

  ghost predicate JsonFunctions(reg: Registry) {
    && "json_extract" in reg && reg["json_extract"] == [JSON_EXTRACT]
    && "json_unquote" in reg && reg["json_unquote"] == [JSON_UNQUOTE]
    && "->>" in reg && reg["->>"] == [ExtractUnquote()]
    && "to_jsonpath" in reg && reg["to_jsonpath"] == ToJsonPaths()
  }

  lemma GivenCompiles(reg: Registry, fields: seq<SourceField>, e: Expr)
    ensures CompilesTo(reg, fields, Compiled(e), e)
  {
  }

  lemma PathCompiles(reg: Registry, fields: seq<SourceField>, path: Expr)
    requires JsonFunctions(reg) && TypeOf(path) == TextType
    ensures CompilesTo(reg, fields, FunctionCall("to_jsonpath", [Compiled(path)]),
      Call(Signature("to_jsonpath", [TextType], JsonPathType), [path]))
  {
    hide CompilesTo, RankOf;
    GivenCompiles(reg, fields, path);
    assert TypesOf([path]) == [TextType];
    RankOne(ToJsonPaths()[0], TextType);
    ScalarCompiles(reg, fields, FunctionCall("to_jsonpath", [Compiled(path)]), ToJsonPaths()[0], [path]);
  }

  lemma SameRank(ty: DataType)
    ensures DatatypeRank(ty, ty) == Some(0)
  {
  }

  lemma CastedExtract(reg: Registry, fields: seq<SourceField>, json: Expr, path: Expr)
    requires JsonFunctions(reg) && TypeOf(json) == JsonType && TypeOf(path) == TextType
    ensures CompilesTo(reg, fields, CastArgs(JSON_EXTRACT, [json, path]), Extracted(json, path))
  {
    hide CompilesTo, RankOf, CastArgs, DatatypeRank, CastFunction;
    var cast, path' := FunctionCall("to_jsonpath", [Compiled(path)]), Extracted(json, path).args[1];
    GivenCompiles(reg, fields, json);
    PathCompiles(reg, fields, path);
    assert TypesOf([json, path']) == [JsonType, JsonPathType];
    RankTwo(JSON_EXTRACT, JsonType, JsonPathType);
    SameRank(JsonType);
    SameRank(JsonPathType);
    PathCasted(json, path);
    ScalarCompiles(reg, fields, FunctionCall("json_extract", [Compiled(json), cast]), JSON_EXTRACT, [json, path']);
  }

  lemma PathCasted(json: Expr, path: Expr)
    requires TypeOf(json) == JsonType && TypeOf(path) == TextType
    ensures CastArgs(JSON_EXTRACT, [json, path]) ==
      FunctionCall("json_extract", [Compiled(json), FunctionCall("to_jsonpath", [Compiled(path)])])
  {
    assert CastFunction(JsonPathType) == "to_jsonpath" && DatatypeRank(JsonType, JsonType) == Some(0);
  }

  /** Extracting at a path given as text: the cast to a path is put around it. */
  lemma ExtractCompiles(reg: Registry, fields: seq<SourceField>, json: Expr, path: Expr)
    requires JsonFunctions(reg) && TypeOf(json) == JsonType && TypeOf(path) == TextType
    ensures CompilesTo(reg, fields, FunctionCall("json_extract", [Compiled(json), Compiled(path)]),
                       Extracted(json, path))
  {
    hide CompilesTo, RankOf, CastArgs, Extracted;
    GivenCompiles(reg, fields, json);
    GivenCompiles(reg, fields, path);
    CastedExtract(reg, fields, json, path);
    assert TypesOf([json, path]) == [JsonType, TextType];
    RankTwo(JSON_EXTRACT, JsonType, TextType);
    ExpandedCompiles(reg, fields, FunctionCall("json_extract", [Compiled(json), Compiled(path)]),
                     JSON_EXTRACT, [json, path], CastArgs(JSON_EXTRACT, [json, path]), Extracted(json, path));
  }

  /** `json ->> path` is json_unquote(json_extract(json, to_jsonpath(path))), the cast put in by
      resolving the expanded call. */
  lemma ArrowCompiles(reg: Registry, fields: seq<SourceField>, json: Expr, path: Expr)
    requires JsonFunctions(reg) && TypeOf(json) == JsonType && TypeOf(path) == TextType
    ensures CompilesTo(reg, fields, FunctionCall("->>", [Compiled(json), Compiled(path)]),
      Call(Signature("json_unquote", [JsonType], TextType), [Extracted(json, path)]))
  {
    hide CompilesTo, RankOf;
    var es, s := [json, path], FunctionCall("json_extract", [Compiled(json), Compiled(path)]);
    GivenCompiles(reg, fields, json);
    GivenCompiles(reg, fields, path);
    ExtractCompiles(reg, fields, json, path);
    assert TypesOf([Extracted(json, path)]) == [JsonType] && TypesOf(es) == [JsonType, TextType];
    RankOne(JSON_UNQUOTE, JsonType);
    RankTwo(ExtractUnquote(), JsonType, TextType);
    var unquote := FunctionCall("json_unquote", [s]);
    var r := Call(Signature("json_unquote", [JsonType], TextType), [Extracted(json, path)]);
    ScalarCompiles(reg, fields, unquote, JSON_UNQUOTE, [Extracted(json, path)]);
    assert Assemble(Compound("json_extract", [Input(0), Input(1)]), es) == s;
    assert Assemble(ExtractUnquote().kind.body, es) == unquote;
    ExpandedCompiles(reg, fields, FunctionCall("->>", [Compiled(json), Compiled(path)]), ExtractUnquote(), es,
                     unquote, r);
  }
}
