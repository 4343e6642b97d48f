/** What overload resolution comes to on the built-in functions: casts, arithmetic and column names. */
module Overloads {
  import opened Bytes
  import opened Exprs
  import opened FunctionCompile

  // ----- Casts

  /** A cast has exactly the type it asks for. */
  lemma CastType(reg: Registry, fields: seq<SourceField>, inner: Source, ty: DataType, e: Expr)
    requires CompilesTo(reg, fields, Cast(inner, ty), e)
    ensures TypeOf(e) == ty
  {
    hide Resolves, CastFunction;
    var x, r :| && ty != NullType && CompilesTo(reg, fields, inner, x)
                && Resolves(reg, CastFunction(ty), [TypeOf(x)], ty, r)
                && r.Direct? && r.definition.kind.ScalarFunction? && e == Call(r.sig, [x]);
    RequestedType(reg, CastFunction(ty), [TypeOf(x)], ty, r);
  }

  /** The only definition that takes the argument types as they are is the one that is resolved to. */
  lemma OnlyFits(reg: Registry, name: string, args: seq<DataType>, ret: DataType, j: nat, r: Resolution)
    requires name in reg && j < |reg[name]| && Resolves(reg, name, args, ret, r)
    requires forall i :: 0 <= i < |reg[name]| ==> (RankOf(reg[name][i], args) == Some(0) <==> i == j)
    ensures r == Direct(Signature(reg[name][j].sig.name, args, ReturnType(reg[name][j], args, ret)), reg[name][j])
  {
    hide RankOf, Resolves, ReturnType;
    DirectIfFits(reg, name, args, ret, j, r);
    var i := ResolvedAt(reg, name, args, ret, r);
    BestInRange(reg[name], args, i);
    BestIsZero(reg[name], args, i, j);
  }

  /** Called as a function, to_decimal of a decimal keeps its precision and scale; as a cast it takes the
      requested ones. */
  lemma DecimalKept(reg: Registry, from: DataType, ret: DataType, r: Resolution)
    requires Builtin(reg) && from.DecimalType? && Resolves(reg, "to_decimal", [from], ret, r)
    ensures r.Direct? && r.sig.ret == if ret != NullType then ret else from
  {
    hide Resolves, RankOf;
    var ds := reg["to_decimal"];
    forall i | 0 <= i < |ds| ensures RankOf(ds[i], [from]) == Some(0) <==> i == 3 { RankOne(ds[i], from); }
    OnlyFits(reg, "to_decimal", [from], ret, 3, r);
  }

  /** A text is a decimal of the widest type unless another one is asked for. */
  lemma TextToDecimal(reg: Registry, ret: DataType, r: Resolution)
    requires Builtin(reg) && Resolves(reg, "to_decimal", [TextType], ret, r)
    ensures r.Direct? && r.sig.ret ==
      if ret != NullType then ret else DecimalType(DECIMAL_MAX_PRECISION, DECIMAL_MAX_SCALE)
  {
    hide Resolves, RankOf;
    var ds := reg["to_decimal"];
    forall i | 0 <= i < |ds| ensures RankOf(ds[i], [TextType]) == Some(0) <==> i == 4 { RankOne(ds[i], TextType); }
    OnlyFits(reg, "to_decimal", [TextType], ret, 4, r);
  }

  /** One-argument functions of one name and result, in the order they are registered. */
  function Casts(name: string, from: seq<DataType>, to: DataType): (r: seq<Definition>)
    ensures |r| == |from| && forall i :: 0 <= i < |from| ==> r[i] == FunctionCompile.Scalar(name, [from[i]], to)
  {
    seq(|from|, i requires 0 <= i < |from| => FunctionCompile.Scalar(name, [from[i]], to))
  }

  /** The cast functions that the built-in registry has besides those that are inserted implicitly. */
  ghost predicate ExplicitCasts(reg: Registry) {
    && "to_bool" in reg && reg["to_bool"] == Casts("to_bool", [BooleanType, TextType, JsonType], BooleanType)
    && "to_int" in reg
    && reg["to_int"] == Casts("to_int", [BooleanType, IntegerType, BigIntType, DecimalType(0, 0), TextType, JsonType],
                              IntegerType)
    && "to_text" in reg && reg["to_text"] == Casts("to_text", [BooleanType, TextType, NullType], TextType)
    && "to_json" in reg
    && reg["to_json"] == Casts("to_json", [BooleanType, IntegerType, BigIntType, DecimalType(0, 0), TextType], JsonType)
    && "to_date" in reg && reg["to_date"] == Casts("to_date", [TextType], DateType)
    && "to_timestamp" in reg && reg["to_timestamp"] == Casts("to_timestamp", [TextType], TimestampType)
    && "to_bytes" !in reg
  }

  /** Which casts there are. Nulls can be cast to anything, and anything to text. */
  predicate Castable(from: DataType, to: DataType) {
    match to
    case NullType => false
    case ByteAType => false
    case TextType => true
    case BooleanType => from.NullType? || from.BooleanType? || from.TextType? || from.JsonType?
    case IntegerType => from.NullType? || from.BooleanType? || Numeric(from) || from.TextType? || from.JsonType?
    case BigIntType => from.NullType? || from.BooleanType? || Numeric(from) || from.TextType? || from.JsonType?
    case DecimalType(_, _) => from.NullType? || from.BooleanType? || Numeric(from) || from.TextType? || from.JsonType?
    case JsonType => from.NullType? || from.BooleanType? || Numeric(from) || from.TextType?
    case DateType => from.NullType? || from.TextType?
    case TimestampType => from.NullType? || from.TextType?
    case JsonPathType => from.NullType? || from.TextType?
  }

  const NUMERIC: seq<DataType> := [BooleanType, IntegerType, BigIntType, DecimalType(0, 0), TextType, JsonType]

  /** The parameter types of the overloads of the cast to a type. */
  function CastFrom(to: DataType): (r: seq<DataType>) {
    match to
    case BooleanType => [BooleanType, TextType, JsonType]
    case IntegerType => NUMERIC
    case BigIntType => NUMERIC
    case DecimalType(_, _) => NUMERIC
    case TextType => [BooleanType, TextType, NullType]
    case JsonType => NUMERIC[..5]
    case DateType => [TextType]
    case TimestampType => [TextType]
    case JsonPathType => [TextType]
    case _ => []
  }

  ghost predicate Takes(types: seq<DataType>, from: DataType) {
    exists i :: 0 <= i < |types| && DatatypeRank(from, types[i]) == Some(0)
  }

  lemma NumericTakes(from: DataType)
    ensures Takes(NUMERIC, from) <==> Castable(from, IntegerType)
    ensures Takes(NUMERIC[..5], from) <==> Castable(from, JsonType)
    ensures !Takes(NUMERIC, from) ==> forall i :: 0 <= i < 6 ==> DatatypeRank(from, NUMERIC[i]).None?
    ensures !Takes(NUMERIC[..5], from) ==> forall i :: 0 <= i < 5 ==> DatatypeRank(from, NUMERIC[..5][i]).None?
  {
    var i := if from.IntegerType? then 1 else if from.BigIntType? then 2 else if from.DecimalType? then 3
             else if from.TextType? then 4 else if from.JsonType? then 5 else 0;
    assert Castable(from, IntegerType) ==> DatatypeRank(from, NUMERIC[i]) == Some(0);
    if i < 5 { assert Castable(from, JsonType) ==> DatatypeRank(from, NUMERIC[..5][i]) == Some(0); }
  }

  lemma FewTake(from: DataType, to: DataType)
    requires to.BooleanType? || to.TextType? || to.DateType? || to.TimestampType? || to.JsonPathType?
    ensures Takes(CastFrom(to), from) <==> Castable(from, to)
    ensures !Castable(from, to) ==> forall i :: 0 <= i < |CastFrom(to)| ==> DatatypeRank(from, CastFrom(to)[i]).None?
  {
    var types := CastFrom(to);
    var i := if to.TextType? then 2 else if !to.BooleanType? || from.NullType? || from.BooleanType? then 0
             else if from.TextType? then 1 else 2;
    assert Castable(from, to) ==> DatatypeRank(from, types[i]) == Some(0);
  }

  /** The overloads take exactly the types that can be cast, and no other even with an implicit cast. */
  lemma TakesExact(from: DataType, to: DataType)
    requires to != NullType && to != ByteAType
    ensures Takes(CastFrom(to), from) <==> Castable(from, to)
    ensures !Castable(from, to) ==> forall i :: 0 <= i < |CastFrom(to)| ==> DatatypeRank(from, CastFrom(to)[i]).None?
  {
    hide Takes, DatatypeRank;
    if to.BooleanType? || to.TextType? || to.DateType? || to.TimestampType? || to.JsonPathType? {
      FewTake(from, to);
    } else {
      NumericTakes(from);
    }
  }

  /** The overloads of a cast function: one argument each, of these types. */
  ghost predicate Overloaded(ds: seq<Definition>, types: seq<DataType>) {
    |ds| == |types| && forall i :: 0 <= i < |ds| ==> ds[i].sig.args == [types[i]] && ds[i].kind.ScalarFunction?
  }

  lemma CastOverloads(reg: Registry, to: DataType)
    requires Builtin(reg) && ExplicitCasts(reg) && to != NullType && to != ByteAType
    ensures CastFunction(to) in reg && Overloaded(reg[CastFunction(to)], CastFrom(to))
  {
  }

  lemma ResolvesOne(reg: Registry, name: string, types: seq<DataType>, from: DataType, ret: DataType, r: Resolution)
    requires name in reg && Resolves(reg, name, [from], ret, r) && Overloaded(reg[name], types)
    requires Takes(types, from) || forall i :: 0 <= i < |types| ==> DatatypeRank(from, types[i]).None?
    ensures r.Direct? <==> Takes(types, from)
    ensures r.Direct? ==> r.definition.kind.ScalarFunction?
  {
    hide RankOf, DatatypeRank;
    var ds := reg[name];
    forall i | 0 <= i < |ds| ensures RankOf(ds[i], [from]) == DatatypeRank(from, types[i]) { RankOne(ds[i], from); }
    if Takes(types, from) {
      var j :| 0 <= j < |types| && DatatypeRank(from, types[j]) == Some(0);
      DirectIfFits(reg, name, [from], ret, j, r);
      var i := ResolvedAt(reg, name, [from], ret, r);
      BestInRange(ds, [from], i);
    }
  }

  /** A cast compiles exactly when there is one between the types, and then it has the type asked for. */
  lemma CastExact(reg: Registry, from: DataType, to: DataType, r: Resolution)
    requires Builtin(reg) && ExplicitCasts(reg) && to != NullType
    requires Resolves(reg, CastFunction(to), [from], to, r)
    ensures r.Direct? <==> Castable(from, to)
    ensures r.Direct? ==> r.definition.kind.ScalarFunction? && r.sig.ret == to && r.sig.args == [from]
  {
    hide Resolves, DatatypeRank, Takes, Castable, Overloaded, CastFrom, CastFunction, Builtin;
    if to == ByteAType {
      NoBytes(reg, from, r);
    } else {
      CastOverloads(reg, to);
      TakesExact(from, to);
      ResolvesOne(reg, CastFunction(to), CastFrom(to), from, to, r);
      if r.Direct? { RequestedType(reg, CastFunction(to), [from], to, r); }
    }
  }

  lemma NoBytes(reg: Registry, from: DataType, r: Resolution)
    requires "to_bytes" !in reg && Resolves(reg, CastFunction(ByteAType), [from], ByteAType, r)
    ensures !r.Direct? && !Castable(from, ByteAType)
  {
  }

  // ----- Nulls

  /** A null fits any parameter and any argument fits a parameter of no type, without a cast. */
  lemma {:induction false} NullFits(from: seq<DataType>, to: seq<DataType>)
    requires |from| == |to|
    requires forall i :: 0 <= i < |from| ==> from[i] == to[i] || from[i] == NullType || to[i] == NullType
    ensures Ranks(from, to) == Some(0)
  {
    RanksZero(from, to);
  }

  /** Of definitions that fit equally well the one registered first is taken: all of them fit nulls. */
  lemma NullsTakeFirst(reg: Registry, name: string, args: seq<DataType>, r: Resolution)
    requires name in reg && |reg[name]| > 0 && |reg[name][0].sig.args| == |args|
    requires (forall i :: 0 <= i < |args| ==> args[i] == NullType) && Resolves(reg, name, args, NullType, r)
    ensures r.Direct? && r.definition == reg[name][0]
  {
    hide Resolves, Ranks, ReturnType;
    NullFits(args, reg[name][0].sig.args);
    DirectIfFits(reg, name, args, NullType, 0, r);
    var i := ResolvedAt(reg, name, args, NullType, r);
    assert RankOf(reg[name][0], args) == Some(0);
    FirstOfZero(reg[name], args, i);
  }

  lemma FirstOfZero(ds: seq<Definition>, args: seq<DataType>, i: nat)
    requires IsBest(ds, args, i) && RankOf(ds[0], args) == Some(0)
    ensures i == 0
  {
    hide RankOf;
  }

  // ----- Arithmetic on mixed types

  /** An operator with overloads for integers, big integers and decimals, in that order. */
  ghost predicate Arithmetic(reg: Registry, name: string) {
    && name in reg && |reg[name]| == 3
    && reg[name][0].sig.args == [IntegerType, IntegerType]
    && reg[name][1].sig.args == [BigIntType, BigIntType]
    && reg[name][2].sig.args == [DecimalType(0, 0), DecimalType(0, 0)]
    && forall i :: 0 <= i < 3 ==> reg[name][i].sig.name == name
  }

  /** Which overload two numeric types take: the narrowest that holds both. */
  function Narrowest(a: DataType, b: DataType): (r: nat) {
    if a.DecimalType? || b.DecimalType? then 2
    else if a.BigIntType? || b.BigIntType? then 1
    else 0
  }

  predicate Numeric(ty: DataType) {
    ty.IntegerType? || ty.BigIntType? || ty.DecimalType?
  }

  /** The overload is the narrowest that holds both operands, directly if no operand has to be widened. */
  lemma NarrowestWins(reg: Registry, name: string, a: DataType, b: DataType, r: Resolution)
    requires Arithmetic(reg, name) && Numeric(a) && Numeric(b) && Resolves(reg, name, [a, b], NullType, r)
    ensures r.Direct? || r.WithCasts?
    ensures r.definition == reg[name][Narrowest(a, b)]
    ensures r.Direct? <==> (a == b || (a.DecimalType? && b.DecimalType?))
  {
    hide Resolves, RankOf, IsBest, Narrowest;
    var ds, k := reg[name], Narrowest(a, b);
    NarrowestBest(reg, name, a, b);
    BestRankedSome(ds, [a, b], k);
    Applies(reg, name, [a, b], k, r);
    var i := ResolvedAt(reg, name, [a, b], NullType, r);
    BestUnique(ds, [a, b], i, k);
  }

  lemma NarrowestBest(reg: Registry, name: string, a: DataType, b: DataType)
    requires Arithmetic(reg, name) && Numeric(a) && Numeric(b)
    ensures IsBest(reg[name], [a, b], Narrowest(a, b))
    ensures RankOf(reg[name][Narrowest(a, b)], [a, b]) == Some(0) <==> a == b || (a.DecimalType? && b.DecimalType?)
  {
    hide RankOf;
    var ds := reg[name];
    RankTwo(ds[0], a, b);
    RankTwo(ds[1], a, b);
    RankTwo(ds[2], a, b);
  }

  lemma Applies(reg: Registry, name: string, args: seq<DataType>, k: nat, r: Resolution)
    requires name in reg && k < |reg[name]| && RankOf(reg[name][k], args).Some?
    requires Resolves(reg, name, args, NullType, r)
    ensures r.Direct? || r.WithCasts?
  {
    hide RankOf, IsBest;
  }

  /** An integer and a big integer, either way round, become big integers and not decimals. */
  lemma IntegerWithBigInt(reg: Registry, name: string, r: Resolution, s: Resolution)
    requires Arithmetic(reg, name)
    requires Resolves(reg, name, [IntegerType, BigIntType], NullType, r)
    requires Resolves(reg, name, [BigIntType, IntegerType], NullType, s)
    ensures r == WithCasts(reg[name][1]) && s == r
  {
    hide Resolves;
    NarrowestWins(reg, name, IntegerType, BigIntType, r);
    NarrowestWins(reg, name, BigIntType, IntegerType, s);
  }

  // ----- Column names

  /** A qualified name is found whenever exactly one field has that qualifier and alias, whatever else
      there is; an unqualified one when exactly one field has the alias. */
  lemma NameFound(reg: Registry, fields: seq<SourceField>, qualifier: Option<string>, alias: string, i: nat)
    requires i < |fields| && fields[i].alias == alias
    requires qualifier.Some? ==>
      && fields[i].qualifier == qualifier
      && forall j :: 0 <= j < |fields| && fields[j].qualifier == qualifier && fields[j].alias == alias ==> j == i
    requires qualifier.None? ==> forall j :: 0 <= j < |fields| && fields[j].alias == alias ==> j == i
    ensures CompilesTo(reg, fields, ColumnName(qualifier, alias), Column(i, fields[i].ty))
  {
    hide Resolves;
    assert OnlyMatch(fields, qualifier, alias, i);
  }

  /** The same name in two tables: each is found by its table, and without one the name is ambiguous. */
  lemma SameNameTwice(reg: Registry, a: SourceField, b: SourceField, e: Expr)
    requires a.alias == b.alias && a.qualifier != b.qualifier && a.qualifier.Some? && b.qualifier.Some?
    ensures CompilesTo(reg, [a, b], ColumnName(a.qualifier, a.alias), Column(0, a.ty))
    ensures CompilesTo(reg, [a, b], ColumnName(b.qualifier, b.alias), Column(1, b.ty))
    ensures !CompilesTo(reg, [a, b], ColumnName(None, a.alias), e)
  {
    hide Resolves;
    NameFound(reg, [a, b], a.qualifier, a.alias, 0);
    NameFound(reg, [a, b], b.qualifier, b.alias, 1);
    assert Matching([a, b], None, a.alias, 0) && Matching([a, b], None, a.alias, 1);
  }
}
