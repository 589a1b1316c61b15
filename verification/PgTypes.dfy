/** Choosing a PostgreSQL type for a SQLite column, and coercing its values to it. */
module PgTypes {
  import opened Wrappers
  import Identifiers

  /** What SQLite can hold in a cell. Reals are finite. */
  datatype Value = Null | Integer(n: int) | Float(x: real) | Text(s: string) | Blob(bytes: seq<bv8>)

  datatype StorageClass = NullClass | IntegerClass | RealClass | TextClass | BlobClass

  datatype PgType = TextType | Bigint | Double | Bytea

  datatype Affinity = IntegerAffinity | RealAffinity | NumericAffinity | TextAffinity | BlobAffinity

  function ClassOf(v: Value): StorageClass {
    match v
    case Null => NullClass
    case Integer(_) => IntegerClass
    case Float(_) => RealClass
    case Text(_) => TextClass
    case Blob(_) => BlobClass
  }

  function ClassesOf(values: seq<Value>): set<StorageClass> {
    set v | v in values :: ClassOf(v)
  }

  predicate TokenAt(s: string, token: string, i: nat) {
    i + |token| <= |s| && s[i..i + |token|] == token
  }

  predicate Contains(s: string, token: string) {
    exists i | 0 <= i <= |s| :: TokenAt(s, token, i)
  }

  /** SQLite's affinity rules, in their documented order, on the upper-cased declaration. */
  function SqliteAffinity(upper: string): Affinity {
    if Contains(upper, "INT") then IntegerAffinity
    else if Contains(upper, "CHAR") || Contains(upper, "CLOB") || Contains(upper, "TEXT") then TextAffinity
    else if Contains(upper, "BLOB") || Identifiers.Strip(upper) == "" then BlobAffinity
    else if Contains(upper, "REAL") || Contains(upper, "FLOA") || Contains(upper, "DOUB") then RealAffinity
    else NumericAffinity
  }

  function AffinityDefault(a: Affinity): PgType {
    match a
    case IntegerAffinity => Bigint
    case RealAffinity => Double
    case NumericAffinity => Double
    case TextAffinity => TextType
    case BlobAffinity => Bytea
  }

  /** The planner's rule, on the storage classes SQLite reports for a whole column. */
  function TypeForClasses(classes: set<StorageClass>, declared: string): PgType {
    var present := classes - {NullClass};
    if present == {} then AffinityDefault(SqliteAffinity(declared))
    else if TextClass in present then TextType
    else if BlobClass in present then
      if IntegerClass in present || RealClass in present then TextType else Bytea
    else if RealClass in present then Double
    else if IntegerClass in present then Bigint
    else TextType
  }

  /** The scanning rule, over the values themselves, agrees with the rule on storage classes. */
  method InferPgType(values: seq<Value>, declared: string) returns (t: PgType)
    ensures t == TypeForClasses(ClassesOf(values), declared)
  {
    var seenInt, seenFloat, seenStr, seenBytes, empty := false, false, false, false, true;
    ghost var seen: set<StorageClass> := {};
    for i := 0 to |values|
      invariant seen == ClassesOf(values[..i])
      invariant empty <==> seen <= {NullClass}
      invariant seenInt <==> IntegerClass in seen
      invariant seenFloat <==> RealClass in seen
      invariant seenStr <==> TextClass in seen
      invariant seenBytes <==> BlobClass in seen
    {
      ClassesSnoc(values[..i], values[i]);
      assert values[..i + 1] == values[..i] + [values[i]];
      seen := seen + {ClassOf(values[i])};
      match values[i] {
        case Null => continue;
        case Integer(_) => seenInt := true;
        case Float(_) => seenFloat := true;
        case Text(_) => seenStr := true;
        case Blob(_) => seenBytes := true;
      }
      empty := false;
    }
    assert values[..|values|] == values;
    if empty { return AffinityDefault(SqliteAffinity(declared)); }
    if seenStr { return TextType; }
    if seenBytes { return if seenInt || seenFloat then TextType else Bytea; }
    if seenFloat { return Double; }
    return Bigint;
  }

  lemma ClassesSnoc(values: seq<Value>, v: Value)
    ensures ClassesOf(values + [v]) == ClassesOf(values) + {ClassOf(v)}
  {
    assert v in values + [v];
    assert forall w :: w in values ==> w in values + [v];
  }

  /** What each chosen type says about the column, when it holds anything. */
  lemma TypeMeans(values: seq<Value>, declared: string)
    requires exists v :: v in values && v != Null
    ensures var t := TypeForClasses(ClassesOf(values), declared);
            && (t == Bigint <==> forall v :: v in values ==> v.Null? || v.Integer?)
            && (t == Double <==> (forall v :: v in values ==> v.Null? || v.Integer? || v.Float?)
                                 && exists v :: v in values && v.Float?)
            && (t == Bytea <==> forall v :: v in values ==> v.Null? || v.Blob?)
  {
    var classes := ClassesOf(values);
    var some :| some in values && some != Null;
    assert ClassOf(some) in classes - {NullClass};
    forall v | v in values
      ensures v.Text? ==> TextClass in classes
      ensures v.Blob? ==> BlobClass in classes
      ensures v.Float? ==> RealClass in classes
      ensures v.Integer? ==> IntegerClass in classes
    {
      assert ClassOf(v) in classes;
    }
    Witness(values, TextClass);
    Witness(values, BlobClass);
    Witness(values, RealClass);
    Witness(values, IntegerClass);
  }

  ghost predicate Mentions(s: string, token: string) {
    exists before, after :: s == before + token + after
  }

  lemma ContainsIffMentions(s: string, token: string)
    ensures Contains(s, token) <==> Mentions(s, token)
  {
    if Contains(s, token) {
      var i :| 0 <= i <= |s| && TokenAt(s, token, i);
      assert s == s[..i] + token + s[i + |token|..];
    }
    if Mentions(s, token) {
      var before, after :| s == before + token + after;
      assert TokenAt(s, token, |before|);
    }
  }

  lemma FirstLetterAppears(s: string, token: string)
    requires Mentions(s, token) && token != ""
    ensures token[0] in s
  {
    var before, after :| s == before + token + after;
    assert s[|before|] == token[0];
  }

  lemma BlankIffStripsAway(s: string)
    ensures Identifiers.Strip(s) == "" <==> Identifiers.Blank(s)
  {
    var left, core, right := Identifiers.StrippedForm(s);
    Identifiers.StripMeans(left, core, right);
    if core != "" { assert s[|left|] == core[0]; }
  }

  ghost predicate SoundsTextual(declared: string) {
    Mentions(declared, "CHAR") || Mentions(declared, "CLOB") || Mentions(declared, "TEXT")
  }

  ghost predicate SoundsBinary(declared: string) {
    Mentions(declared, "BLOB") || Identifiers.Blank(declared)
  }

  ghost predicate SoundsReal(declared: string) {
    Mentions(declared, "REAL") || Mentions(declared, "FLOA") || Mentions(declared, "DOUB")
  }

  /** The affinity is that of the first rule some part of the declaration meets. */
  lemma AffinityMeans(declared: string)
    ensures var a := SqliteAffinity(declared);
            && (a == IntegerAffinity <==> Mentions(declared, "INT"))
            && (a == TextAffinity <==> !Mentions(declared, "INT") && SoundsTextual(declared))
            && (a == BlobAffinity <==>
                  !Mentions(declared, "INT") && !SoundsTextual(declared) && SoundsBinary(declared))
            && (a == RealAffinity <==>
                  && !Mentions(declared, "INT") && !SoundsTextual(declared) && !SoundsBinary(declared)
                  && SoundsReal(declared))
  {
    hide Contains, Mentions, Identifiers.Strip, Identifiers.Blank;
    ContainsIffMentions(declared, "INT");
    ContainsIffMentions(declared, "CHAR");
    ContainsIffMentions(declared, "CLOB");
    ContainsIffMentions(declared, "TEXT");
    ContainsIffMentions(declared, "BLOB");
    ContainsIffMentions(declared, "REAL");
    ContainsIffMentions(declared, "FLOA");
    ContainsIffMentions(declared, "DOUB");
    BlankIffStripsAway(declared);
  }

  /** A column that holds nothing takes its type from the declaration, by the first rule that applies. */
  lemma EmptyColumnType(values: seq<Value>, declared: string)
    requires forall v :: v in values ==> v.Null?
    ensures var t := TypeForClasses(ClassesOf(values), declared);
            && (t == Bigint <==> Mentions(declared, "INT"))
            && (t == TextType <==> !Mentions(declared, "INT") && SoundsTextual(declared))
            && (t == Bytea <==>
                  !Mentions(declared, "INT") && !SoundsTextual(declared) && SoundsBinary(declared))
            && (t == Double <==>
                  !Mentions(declared, "INT") && !SoundsTextual(declared) && !SoundsBinary(declared))
  {
    hide SqliteAffinity, Mentions, SoundsTextual, SoundsBinary, SoundsReal;
    assert ClassesOf(values) - {NullClass} == {};
    AffinityMeans(declared);
  }

  /** The rules are followed as written: a point is an integer, and a character type holding one is text. */
  lemma PointIsAnInteger(values: seq<Value>)
    requires forall v :: v in values ==> v.Null?
    ensures TypeForClasses(ClassesOf(values), "POINT") == Bigint
    ensures TypeForClasses(ClassesOf(values), "VARCHAR(20)") == TextType
  {
    hide TypeForClasses, SoundsBinary, SoundsReal;
    assert "POINT" == "PO" + "INT" + "" && "VARCHAR(20)" == "VAR" + "CHAR" + "(20)";
    EmptyColumnType(values, "POINT");
    EmptyColumnType(values, "VARCHAR(20)");
    if Mentions("VARCHAR(20)", "INT") { FirstLetterAppears("VARCHAR(20)", "INT"); }
    assert forall i :: 0 <= i < |"VARCHAR(20)"| ==> "VARCHAR(20)"[i] != 'I';
  }

  lemma Witness(values: seq<Value>, c: StorageClass)
    ensures c in ClassesOf(values) ==> exists v :: v in values && ClassOf(v) == c
  {
  }

  // ----- casts -----

  /** Python's conversions of text and blobs: they may fail, and the rest render or encode. */
  datatype Casts = Casts(
    intOf: Value -> Option<int>,
    floatOf: Value -> Option<real>,
    textOf: Value -> string,
    bytesOf: Value -> seq<bv8>)

  /** `int` on a float: towards zero. */
  function Truncated(x: real): int {
    if x >= 0.0 then x.Floor else -((-x).Floor)
  }

  /** Nearest whole number on the side of zero. */
  lemma TruncatedIsTowardsZero(x: real)
    ensures var t := Truncated(x) as real;
            if x >= 0.0 then 0.0 <= t <= x < t + 1.0 else t - 1.0 < x <= t <= 0.0
  {
  }

  function CastInt(casts: Casts, v: Value): Option<int> {
    match v
    case Integer(n) => Some(n)
    case Float(x) => Some(Truncated(x))
    case _ => casts.intOf(v)
  }

  function CastFloat(casts: Casts, v: Value): Option<real> {
    match v
    case Integer(n) => Some(n as real)
    case Float(x) => Some(x)
    case _ => casts.floatOf(v)
  }

  predicate Fits(casts: Casts, v: Value, t: PgType) {
    || v.Null?
    || (if t == Bigint
        then CastInt(casts, v).Some? && (v.Float? ==> CastInt(casts, v).value as real == v.x)
        else CastFloat(casts, v).Some?)
  }

  predicate AllFit(casts: Casts, values: seq<Value>, t: PgType) {
    forall i :: 0 <= i < |values| ==> Fits(casts, values[i], t)
  }

  /** What fits: whole numbers in bigint, any number in double, and whatever else Python's casts take. */
  lemma FitsMeans(casts: Casts, v: Value)
    ensures Fits(casts, v, Bigint) <==>
            || v.Null? || v.Integer?
            || (v.Float? && v.x.Floor as real == v.x)
            || ((v.Text? || v.Blob?) && casts.intOf(v).Some?)
    ensures Fits(casts, v, Double) <==>
            v.Null? || v.Integer? || v.Float? || casts.floatOf(v).Some?
  {
    if v.Float? && Truncated(v.x) as real == v.x { assert v.x.Floor == Truncated(v.x); }
  }

  method ValuesFit(casts: Casts, values: seq<Value>, t: PgType) returns (fit: bool)
    ensures fit <==> AllFit(casts, values, t)
  {
    for i := 0 to |values|
      invariant AllFit(casts, values[..i], t)
    {
      var v := values[i];
      if v.Null? { continue; }
      if t == Bigint {
        var converted := CastInt(casts, v);
        if converted.None? { return false; }
        if v.Float? && converted.value as real != v.x { return false; }
      } else if CastFloat(casts, v).None? {
        return false;
      }
    }
    return true;
  }

  /** A value as it is written to PostgreSQL. */
  datatype Adapted = SqlNull | SqlText(s: string) | SqlInt(n: int) | SqlDouble(x: real) | SqlBytes(b: seq<bv8>)

  /** `None` when the conversion raises, which aborts the load of the whole database. */
  function Adapt(casts: Casts, v: Value, t: PgType): Option<Adapted> {
    if v.Null? then Some(SqlNull)
    else
      match t
      case Bytea => Some(SqlBytes(if v.Blob? then v.bytes else casts.bytesOf(v)))
      case TextType => Some(SqlText(if v.Text? then v.s else casts.textOf(v)))
      case Bigint => if CastInt(casts, v).Some? then Some(SqlInt(CastInt(casts, v).value)) else None
      case Double => if CastFloat(casts, v).Some? then Some(SqlDouble(CastFloat(casts, v).value)) else None
  }

  /** No value is lost on its way into a column whose values fit. */
  ghost predicate Faithful(casts: Casts, v: Value, t: PgType) {
    && Adapt(casts, v, t).Some?
    && (v.Null? <==> Adapt(casts, v, t).value == SqlNull)
    && (v.Integer? && t == Bigint ==> Adapt(casts, v, t).value == SqlInt(v.n))
    && (v.Integer? && t == Double ==> Adapt(casts, v, t).value == SqlDouble(v.n as real))
    && (v.Float? && t == Bigint ==> Adapt(casts, v, t).value.n as real == v.x)
    && (v.Float? && t == Double ==> Adapt(casts, v, t).value == SqlDouble(v.x))
    && (v.Text? && t == TextType ==> Adapt(casts, v, t).value == SqlText(v.s))
    && (v.Blob? && t == Bytea ==> Adapt(casts, v, t).value == SqlBytes(v.bytes))
    && (!v.Null? && !v.Text? && t == TextType ==> Adapt(casts, v, t).value == SqlText(casts.textOf(v)))
    && ((v.Text? || v.Blob?) && t == Bigint ==>
          exists n :: casts.intOf(v) == Some(n) && Adapt(casts, v, t).value == SqlInt(n))
    && ((v.Text? || v.Blob?) && t == Double ==>
          exists x :: casts.floatOf(v) == Some(x) && Adapt(casts, v, t).value == SqlDouble(x))
  }

  /** The type chosen from the storage classes takes every value of the column. */
  lemma InferredTypeTakesAll(casts: Casts, values: seq<Value>, declared: string, v: Value)
    requires v in values
    ensures Faithful(casts, v, TypeForClasses(ClassesOf(values), declared))
  {
    if v != Null { TypeMeans(values, declared); }
  }

  /** So does a numeric type every value was checked against. */
  lemma FittedTypeTakesAll(casts: Casts, values: seq<Value>, t: PgType, v: Value)
    requires v in values && AllFit(casts, values, t) && (t == Bigint || t == Double)
    ensures Faithful(casts, v, t)
  {
    var i :| 0 <= i < |values| && values[i] == v;
  }
}
