/**
 The part of a schema's syntax tree that the transformer inspects: whether a type admits null,
 what its base type is, and which value stands in for a missing custom field.
 */
module SchemaAst {
  import opened Values
  import opened Wrappers

  datatype BaseType = StringType | NumberType | BooleanType

  datatype Ast =
    | Keyword(base: BaseType)
    | NullLiteral
    | Literal(literal: Value)
    | Union(types: seq<Ast>)
    | Transformation(from: Ast, to: Ast)
    | Refinement(from: Ast)
    | Other

  /** Only a direct member of a union counts as its null. */
  predicate IsNullable(ast: Ast) {
    match ast
    case Union(types) => NullLiteral in types
    case Transformation(from, to) => IsNullable(from) || IsNullable(to)
    case Refinement(from) => IsNullable(from)
    case _ => false
  }

  /** The base type the transformer defaults by: that of the first member of a union that has one. */
  function GetBaseType(ast: Ast): (t: Option<BaseType>)
    decreases ast
  {
    match ast
    case Keyword(base) => Some(base)
    case Union(types) => FirstBaseType(types)
    case Transformation(from, _) => GetBaseType(from)
    case Refinement(from) => GetBaseType(from)
    case _ => None
  }

  function FirstBaseType(types: seq<Ast>): (t: Option<BaseType>)
    decreases types
  {
    if types == [] then None
    else if types[0] != NullLiteral && GetBaseType(types[0]).Some? then GetBaseType(types[0])
    else FirstBaseType(types[1..])
  }

  /** The type the transformer decodes by: that of the first member of a union that is not null. */
  function GetUnderlyingType(ast: Ast): (t: Option<BaseType>)
    decreases ast
  {
    match ast
    case Keyword(base) => Some(base)
    case Literal(Str(_)) => Some(StringType)
    case Literal(Num(_)) => Some(NumberType)
    case Literal(Bool(_)) => Some(BooleanType)
    case Union(types) => FirstUnderlyingType(types)
    case Transformation(from, _) => GetUnderlyingType(from)
    case Refinement(from) => GetUnderlyingType(from)
    case _ => None
  }

  function FirstUnderlyingType(types: seq<Ast>): (t: Option<BaseType>)
    decreases types
  {
    if types == [] then None
    else if types[0] != NullLiteral then GetUnderlyingType(types[0])
    else FirstUnderlyingType(types[1..])
  }

  function Zero(t: Option<BaseType>): (v: Value) {
    match t
    case Some(BooleanType) => Bool(false)
    case Some(NumberType) => Num(0)
    case Some(StringType) => Str("")
    case None => Null
  }

  /** The default of a custom field without a default function. */
  function DefaultOf(ast: Ast): (v: Value) {
    if IsNullable(ast) then Null else Zero(GetBaseType(ast))
  }

  lemma {:induction false} FirstKeywordGivesBase(types: seq<Ast>, i: nat)
    requires i < |types| && GetBaseType(types[i]).Some? && types[i] != NullLiteral
    requires forall j :: 0 <= j < i ==> types[j] == NullLiteral || GetBaseType(types[j]).None?
    ensures FirstBaseType(types) == GetBaseType(types[i])
  {
    if i > 0 {
      FirstKeywordGivesBase(types[1..], i - 1);
    }
  }

  predicate IsFirstBase(types: seq<Ast>, i: nat) {
    i < |types| && GetBaseType(types[i]).Some? && forall j :: 0 <= j < i ==> GetBaseType(types[j]).None?
  }

  /**
   The values that stand in: null where null is a direct member, and else the zero of the first member
   with a base type; a refinement is what it refines, and a transformation what it comes from, unless
   either side of it admits null.
   */
  lemma DefaultInValues(types: seq<Ast>, i: nat, from: Ast, to: Ast)
    ensures DefaultOf(Keyword(StringType)) == Str("") && DefaultOf(Keyword(NumberType)) == Num(0)
    ensures DefaultOf(Keyword(BooleanType)) == Bool(false) && DefaultOf(NullLiteral) == DefaultOf(Other) == Null
    ensures NullLiteral in types ==> DefaultOf(Union(types)) == Null
    ensures NullLiteral !in types && IsFirstBase(types, i) ==>
      DefaultOf(Union(types)) == match GetBaseType(types[i]).value
        case StringType => Str("")
        case NumberType => Num(0)
        case BooleanType => Bool(false)
    ensures DefaultOf(Refinement(from)) == DefaultOf(from)
    ensures IsNullable(from) || IsNullable(to) ==> DefaultOf(Transformation(from, to)) == Null
    ensures !IsNullable(from) && !IsNullable(to) ==> DefaultOf(Transformation(from, to)) == DefaultOf(from)
  {
    if NullLiteral !in types && IsFirstBase(types, i) {
      assert types[i] in types;
      FirstKeywordGivesBase(types, i);
    }
  }

  /**
   The types that decoding goes by: a literal's own, the first member's that is not null, and what a
   type is made from.
   */
  lemma UnderlyingInTypes(base: BaseType, text: string, n: int, b: bool, first: Ast, rest: seq<Ast>, from: Ast, to: Ast)
    ensures GetUnderlyingType(Keyword(base)) == Some(base)
    ensures GetUnderlyingType(Literal(Str(text))) == Some(StringType)
      && GetUnderlyingType(Literal(Num(n))) == Some(NumberType)
    ensures GetUnderlyingType(Literal(Bool(b))) == Some(BooleanType)
    ensures GetUnderlyingType(NullLiteral) == GetUnderlyingType(Other) == GetUnderlyingType(Union([])) == None
    ensures GetUnderlyingType(Union([first] + rest))
      == GetUnderlyingType(if first == NullLiteral then Union(rest) else first)
    ensures GetUnderlyingType(Transformation(from, to)) == GetUnderlyingType(Refinement(from))
      == GetUnderlyingType(from)
  {
    assert ([first] + rest)[1..] == rest;
  }

  // ----- what a type accepts

  /** Keywords, null and nested unions of them. */
  predicate IsPlain(ast: Ast)
    decreases ast
  {
    match ast
    case Keyword(_) => true
    case NullLiteral => true
    case Union(types) => forall t :: t in types ==> IsPlain(t)
    case _ => false
  }

  /** Keywords, null, other literals and nested unions of them. */
  predicate IsSimple(ast: Ast)
    decreases ast
  {
    match ast
    case Keyword(_) => true
    case NullLiteral => true
    case Literal(l) => l.Str? || l.Num? || l.Bool?
    case Union(types) => forall t :: t in types ==> IsSimple(t)
    case _ => false
  }

  /** The values of a simple type. */
  predicate Accepts(ast: Ast, v: Value)
    decreases ast
  {
    match ast
    case Keyword(StringType) => v.Str?
    case Keyword(NumberType) => v.Num?
    case Keyword(BooleanType) => v.Bool?
    case NullLiteral => v == Null
    case Literal(l) => v == l
    case Union(types) => exists t :: t in types && Accepts(t, v)
    case _ => false
  }

  /** A simple type accepts the zero of its base type. */
  lemma {:induction false} SimpleZero(ast: Ast)
    requires IsSimple(ast)
    ensures GetBaseType(ast).Some? ==> Accepts(ast, Zero(GetBaseType(ast)))
    decreases ast
  {
    if ast.Union? {
      SimpleZeroOfMembers(ast.types);
    }
  }

  lemma {:induction false} SimpleZeroOfMembers(types: seq<Ast>)
    requires forall t :: t in types ==> IsSimple(t)
    ensures FirstBaseType(types).Some? ==> exists t :: t in types && Accepts(t, Zero(FirstBaseType(types)))
    decreases types
  {
    if types != [] {
      SimpleZero(types[0]);
      SimpleZeroOfMembers(types[1..]);
    }
  }

  /**
   The default of a simple type is a value of the type if and only if the type has a keyword
   among its members or admits null, however deep; so a choice of literals alone is given a
   default that it rejects.
   */
  lemma DefaultIsAcceptedIff(ast: Ast)
    requires IsSimple(ast)
    ensures Accepts(ast, DefaultOf(ast)) <==> GetBaseType(ast).Some? || Accepts(ast, Null)
    ensures GetBaseType(ast).Some? <==> HasKeyword(ast)
  {
    SimpleZero(ast);
    KeywordGivesBase(ast);
    if IsNullable(ast) {
      assert Accepts(NullLiteral, Null);
    }
  }

  predicate HasKeyword(ast: Ast)
    decreases ast
  {
    match ast
    case Keyword(_) => true
    case Union(types) => exists t :: t in types && HasKeyword(t)
    case _ => false
  }

  lemma {:induction false} KeywordGivesBase(ast: Ast)
    requires IsSimple(ast)
    ensures GetBaseType(ast).Some? <==> HasKeyword(ast)
    decreases ast
  {
    if ast.Union? {
      KeywordGivesFirstBase(ast.types);
    }
  }

  lemma {:induction false} KeywordGivesFirstBase(types: seq<Ast>)
    requires forall t :: t in types ==> IsSimple(t)
    ensures FirstBaseType(types).Some? <==> exists t :: t in types && HasKeyword(t)
    decreases types
  {
    if types != [] {
      KeywordGivesBase(types[0]);
      KeywordGivesFirstBase(types[1..]);
    }
  }

  /** Without other literals, the default is a value of the type unless the type has none at all. */
  lemma PlainDefaultIsAcceptedIff(ast: Ast)
    requires IsPlain(ast)
    ensures IsSimple(ast)
    ensures Accepts(ast, DefaultOf(ast)) <==> exists v :: Accepts(ast, v)
  {
    PlainIsSimple(ast);
    DefaultIsAcceptedIff(ast);
  }

  lemma {:induction false} PlainIsSimple(ast: Ast)
    requires IsPlain(ast)
    ensures IsSimple(ast)
    ensures (exists v :: Accepts(ast, v)) ==> HasKeyword(ast) || Accepts(ast, Null)
    decreases ast
  {
    match ast
    case Union(types) =>
      forall t | t in types
        ensures IsSimple(t) && ((exists v :: Accepts(t, v)) ==> HasKeyword(t) || Accepts(t, Null))
      {
        PlainIsSimple(t);
      }
      if v :| Accepts(ast, v) {
        var t :| t in types && Accepts(t, v);
        assert HasKeyword(t) || Accepts(t, Null);
      }
    case _ =>
  }

  /** Where decoding knows a plain type, defaulting knows the same one. */
  lemma {:induction false} UnderlyingIsBase(ast: Ast)
    requires IsPlain(ast)
    ensures GetUnderlyingType(ast).Some? ==> GetBaseType(ast) == GetUnderlyingType(ast)
    decreases ast
  {
    if ast.Union? {
      UnderlyingIsBaseOfMembers(ast.types);
    }
  }

  lemma {:induction false} UnderlyingIsBaseOfMembers(types: seq<Ast>)
    requires forall t :: t in types ==> IsPlain(t)
    ensures FirstUnderlyingType(types).Some? ==> FirstBaseType(types) == FirstUnderlyingType(types)
    decreases types
  {
    if types != [] {
      UnderlyingIsBase(types[0]);
      UnderlyingIsBaseOfMembers(types[1..]);
    }
  }
}
