/**
  D-Bus signatures generated from C++ types, and the parser of the D-Bus Specification's type system
  that reads them back.
*/
module DBusSignature {
  import opened Options

  // The types `_i_gen_sig_f` has a branch for.  A std::tuple without elements has none: its fold over
  // `+` is empty.
  datatype Type =
    | Vector(element: Type)
    | Variant
    | String | CString
    | Int16 | UInt16 | Int32 | UInt32 | Int64 | UInt64 | Byte
    | ObjectPath
    | Double
    | Bool
    | Tuple(first: Type, rest: seq<Type>)
    | Map(key: Type, mapped: Type)

  function GenSig(t: Type): string {
    match t
    case Vector(e) => "a" + GenSig(e)
    case Variant => "v"
    case String => "s"
    case Int32 => "i"
    case UInt32 => "u"
    case Int16 => "n"
    case UInt16 => "q"
    case Int64 => "x"
    case UInt64 => "t"
    case Byte => "y"
    case ObjectPath => "o"
    case Double => "d"
    case CString => "s"
    case Tuple(f, ts) => "(" + GenSig(f) + GenSigs(ts) + ")"
    case Map(k, m) => "a{" + GenSig(k) + GenSig(m) + "}"
    case Bool => "b"
  }

  // The fold over a tuple's element types.
  function GenSigs(ts: seq<Type>): string {
    if ts == [] then "" else GenSig(ts[0]) + GenSigs(ts[1..])
  }

  // ----- the D-Bus type system -----

  // What a basic type holds.
  datatype Kind =
    | Integer(signed: bool, bits: nat)
    | Boolean
    | DoublePrecision
    | Text
    | Path
    | SignatureText
    | FileDescriptor

  // What a signature can tell.
  datatype Shape =
    | Basic(kind: Kind)
    | VariantShape
    | Array(element: Shape)
    | Struct(fields: seq<Shape>)
    | Dict(key: Shape, value: Shape)

  // The table of basic types of the D-Bus Specification.
  function KindOf(c: char): Option<Kind> {
    match c
    case 'y' => Some(Integer(false, 8))
    case 'b' => Some(Boolean)
    case 'n' => Some(Integer(true, 16))
    case 'q' => Some(Integer(false, 16))
    case 'i' => Some(Integer(true, 32))
    case 'u' => Some(Integer(false, 32))
    case 'x' => Some(Integer(true, 64))
    case 't' => Some(Integer(false, 64))
    case 'd' => Some(DoublePrecision)
    case 'h' => Some(FileDescriptor)
    case 's' => Some(Text)
    case 'o' => Some(Path)
    case 'g' => Some(SignatureText)
    case _ => None
  }

  datatype Parsed = Parsed(shape: Shape, rest: string)

  datatype ParsedMany = ParsedMany(shapes: seq<Shape>, rest: string)

  // How dict keys are read: the type system wants a basic type there; any single complete type still
  // tells where the key ends.
  datatype Keys = OnlyBasic | AnyType

  predicate KeyAllowed(key: Shape, keys: Keys) {
    keys.AnyType? || key.Basic?
  }

  // One single complete type.
  function Parse(s: string, keys: Keys): (p: Option<Parsed>)
    ensures p.Some? ==> |p.value.rest| < |s|
    decreases |s|, 1
  {
    if s == "" then None
    else if KindOf(s[0]).Some? then Some(Parsed(Basic(KindOf(s[0]).value), s[1..]))
    else if s[0] == 'v' then Some(Parsed(VariantShape, s[1..]))
    else if s[0] == 'a' && |s| > 1 && s[1] == '{' then ParseDict(s[2..], keys)
    else if s[0] == 'a' then
      (match Parse(s[1..], keys)
       case None => None
       case Some(e) => Some(Parsed(Array(e.shape), e.rest)))
    else if s[0] == '(' then
      (match ParseFields(s[1..], keys)
       case None => None
       case Some(fs) => if fs.shapes == [] then None else Some(Parsed(Struct(fs.shapes), fs.rest)))
    else None
  }

  // A dict entry after its opening brace: two single complete types, the first allowed as a key.
  function ParseDict(s: string, keys: Keys): (p: Option<Parsed>)
    ensures p.Some? ==> |p.value.rest| < |s|
    decreases |s|, 2
  {
    match Parse(s, keys)
    case None => None
    case Some(k) =>
      if !KeyAllowed(k.shape, keys) then None
      else
        match Parse(k.rest, keys)
        case None => None
        case Some(v) =>
          if v.rest != "" && v.rest[0] == '}' then Some(Parsed(Dict(k.shape, v.shape), v.rest[1..])) else None
  }

  // Fields up to the closing parenthesis.
  function ParseFields(s: string, keys: Keys): (p: Option<ParsedMany>)
    ensures p.Some? ==> |p.value.rest| < |s|
    decreases |s|, 2
  {
    if s == "" then None
    else if s[0] == ')' then Some(ParsedMany([], s[1..]))
    else
      match Parse(s, keys)
      case None => None
      case Some(f) =>
        match ParseFields(f.rest, keys)
        case None => None
        case Some(fs) => Some(ParsedMany([f.shape] + fs.shapes, fs.rest))
  }

  // ----- what a type's signature stands for -----

  function ShapeOf(t: Type): Shape {
    match t
    case Vector(e) => Array(ShapeOf(e))
    case Variant => VariantShape
    case String => Basic(Text)
    case CString => Basic(Text)
    case Int16 => Basic(Integer(true, 16))
    case UInt16 => Basic(Integer(false, 16))
    case Int32 => Basic(Integer(true, 32))
    case UInt32 => Basic(Integer(false, 32))
    case Int64 => Basic(Integer(true, 64))
    case UInt64 => Basic(Integer(false, 64))
    case Byte => Basic(Integer(false, 8))
    case ObjectPath => Basic(Path)
    case Double => Basic(DoublePrecision)
    case Bool => Basic(Boolean)
    case Tuple(f, ts) => Struct([ShapeOf(f)] + ShapesOf(ts))
    case Map(k, m) => Dict(ShapeOf(k), ShapeOf(m))
  }

  function ShapesOf(ts: seq<Type>): seq<Shape> {
    if ts == [] then [] else [ShapeOf(ts[0])] + ShapesOf(ts[1..])
  }

  lemma StartsAType(t: Type, suffix: string)
    ensures
      var s := GenSig(t) + suffix;
      s != "" && s[0] != ')' && s[0] != '}' && s[0] != '{'
  {
  }

  // Every std::map in the type has keys of a basic type.
  predicate KeysAreBasic(t: Type) {
    match t
    case Vector(e) => KeysAreBasic(e)
    case Tuple(f, ts) => KeysAreBasic(f) && AllKeysAreBasic(ts)
    case Map(k, m) => ShapeOf(k).Basic? && KeysAreBasic(m)
    case _ => true
  }

  predicate AllKeysAreBasic(ts: seq<Type>) {
    ts == [] || (KeysAreBasic(ts[0]) && AllKeysAreBasic(ts[1..]))
  }

  predicate Readable(t: Type, keys: Keys) {
    keys.AnyType? || KeysAreBasic(t)
  }

  predicate AllReadable(ts: seq<Type>, keys: Keys) {
    keys.AnyType? || AllKeysAreBasic(ts)
  }

  // What the parser makes of a type's signature and what is behind it.
  function Reading(t: Type, suffix: string, keys: Keys): Option<Parsed> {
    if Readable(t, keys) then Some(Parsed(ShapeOf(t), suffix)) else None
  }

  // One step of the parser on each kind of text.
  lemma ParseOne(c: char, suffix: string, keys: Keys)
    ensures KindOf(c).Some? ==> Parse([c] + suffix, keys) == Some(Parsed(Basic(KindOf(c).value), suffix))
    ensures Parse("v" + suffix, keys) == Some(Parsed(VariantShape, suffix))
  {
    assert ([c] + suffix)[1..] == suffix && ("v" + suffix)[1..] == suffix;
  }

  lemma ParseArray(s: string, keys: Keys)
    requires s != "" && s[0] != '{'
    ensures
      Parse("a" + s, keys)
      == match Parse(s, keys) case None => None case Some(e) => Some(Parsed(Array(e.shape), e.rest))
  {
    assert ("a" + s)[1..] == s;
  }

  lemma ParseStruct(s: string, keys: Keys)
    requires s != "" && s[0] != ')'
    ensures Parse(s, keys).None? ==> Parse("(" + s, keys).None?
    ensures Parse(s, keys).Some? ==>
      Parse("(" + s, keys)
      == match ParseFields(Parse(s, keys).value.rest, keys)
         case None => None
         case Some(fs) => Some(Parsed(Struct([Parse(s, keys).value.shape] + fs.shapes), fs.rest))
  {
    assert ("(" + s)[1..] == s;
  }

  lemma ParseMap(s: string, keys: Keys)
    ensures Parse("a{" + s, keys) == ParseDict(s, keys)
  {
    assert ("a{" + s)[2..] == s;
  }

  lemma Bracketed(before: string, a: string, b: string, after: string, suffix: string)
    ensures before + a + b + after + suffix == before + (a + (b + (after + suffix)))
  {
    assert before + a + b + after + suffix == before + a + b + (after + suffix);
    assert before + a + b + (after + suffix) == before + a + (b + (after + suffix));
  }

  lemma {:induction false} TypeParses(t: Type, suffix: string, keys: Keys)
    ensures Parse(GenSig(t) + suffix, keys) == Reading(t, suffix, keys)
    decreases t, 1
  {
    match t {
      case Vector(e) => VectorParses(e, suffix, keys);
      case Tuple(f, ts) => StructParses(f, ts, suffix, keys);
      case Map(k, m) => MapParses(k, m, suffix, keys);
      case _ => LeafParses(t, suffix, keys);
    }
  }

  lemma LeafParses(t: Type, suffix: string, keys: Keys)
    requires !t.Vector? && !t.Tuple? && !t.Map?
    ensures Parse(GenSig(t) + suffix, keys) == Reading(t, suffix, keys)
  {
    ParseOne(GenSig(t)[0], suffix, keys);
    assert GenSig(t) == [GenSig(t)[0]];
  }

  lemma {:induction false} VectorParses(e: Type, suffix: string, keys: Keys)
    ensures Parse(GenSig(Vector(e)) + suffix, keys) == Reading(Vector(e), suffix, keys)
    decreases Vector(e), 0
  {
    TypeParses(e, suffix, keys);
    StartsAType(e, suffix);
    ArrayParses(GenSig(e) + suffix, e, suffix, keys);
    Associative("a", GenSig(e), suffix);
  }

  lemma ArrayParses(s: string, e: Type, suffix: string, keys: Keys)
    requires s != "" && s[0] != '{' && Parse(s, keys) == Reading(e, suffix, keys)
    ensures Parse("a" + s, keys) == Reading(Vector(e), suffix, keys)
  {
    ParseArray(s, keys);
  }

  lemma Associative(a: string, b: string, c: string)
    ensures a + b + c == a + (b + c)
  {
  }

  lemma {:induction false} StructParses(f: Type, ts: seq<Type>, suffix: string, keys: Keys)
    ensures Parse(GenSig(Tuple(f, ts)) + suffix, keys) == Reading(Tuple(f, ts), suffix, keys)
    decreases Tuple(f, ts), 0
  {
    var rest := GenSigs(ts) + (")" + suffix);
    TypeParses(f, rest, keys);
    FieldsParse(ts, suffix, keys);
    StartsAType(f, rest);
    ParseStruct(GenSig(f) + rest, keys);
    Bracketed("(", GenSig(f), GenSigs(ts), ")", suffix);
  }

  lemma {:induction false} MapParses(k: Type, m: Type, suffix: string, keys: Keys)
    ensures Parse(GenSig(Map(k, m)) + suffix, keys) == Reading(Map(k, m), suffix, keys)
    decreases Map(k, m), 0
  {
    var rest := GenSig(m) + ("}" + suffix);
    TypeParses(k, rest, keys);
    TypeParses(m, "}" + suffix, keys);
    BasicIsReadable(k);
    DictParses(GenSig(k) + rest, rest, suffix, k, m, keys);
    MapText(k, m, suffix);
  }

  lemma MapText(k: Type, m: Type, suffix: string)
    ensures GenSig(Map(k, m)) + suffix == "a{" + (GenSig(k) + (GenSig(m) + ("}" + suffix)))
  {
    Bracketed("a{", GenSig(k), GenSig(m), "}", suffix);
  }

  lemma BasicIsReadable(t: Type)
    ensures ShapeOf(t).Basic? ==> KeysAreBasic(t)
  {
  }

  lemma DictParses(s: string, rest: string, suffix: string, k: Type, m: Type, keys: Keys)
    requires Parse(s, keys) == Reading(k, rest, keys)
    requires Parse(rest, keys) == Reading(m, "}" + suffix, keys)
    requires ShapeOf(k).Basic? ==> KeysAreBasic(k)
    ensures Parse("a{" + s, keys) == Reading(Map(k, m), suffix, keys)
  {
    ParseMap(s, keys);
    assert ("}" + suffix)[1..] == suffix;
  }

  lemma {:induction false} FieldsParse(ts: seq<Type>, suffix: string, keys: Keys)
    ensures
      ParseFields(GenSigs(ts) + (")" + suffix), keys)
      == if AllReadable(ts, keys) then Some(ParsedMany(ShapesOf(ts), suffix)) else None
    decreases ts, 0
  {
    var s := GenSigs(ts) + (")" + suffix);
    if ts == [] {
      assert s == ")" + suffix && s[1..] == suffix;
    } else {
      var rest := GenSigs(ts[1..]) + (")" + suffix);
      assert s == GenSig(ts[0]) + rest;
      TypeParses(ts[0], rest, keys);
      FieldsParse(ts[1..], suffix, keys);
      StartsAType(ts[0], rest);
    }
  }

  /**
    The parser of the D-Bus type system, run on a generated signature with anything behind it, finds
    the shape of the type and leaves exactly what was behind it, if and only if every std::map in the
    type has keys of a basic type; otherwise it rejects the signature.
  */
  lemma SignatureParsesIff(t: Type, suffix: string)
    ensures Parse(GenSig(t) + suffix, OnlyBasic) == Some(Parsed(ShapeOf(t), suffix)) <==> KeysAreBasic(t)
    ensures !KeysAreBasic(t) ==> Parse(GenSig(t) + suffix, OnlyBasic) == None
  {
    TypeParses(t, suffix, OnlyBasic);
  }

  /**
    Whatever its keys, no signature is a proper prefix of another, and equal signatures stand for equal
    shapes, whatever follows them.
  */
  lemma SignaturesArePrefixFree(t: Type, u: Type, after: string, after': string)
    requires GenSig(t) + after == GenSig(u) + after'
    ensures GenSig(t) == GenSig(u) && after == after' && ShapeOf(t) == ShapeOf(u)
  {
    TypeParses(t, after, AnyType);
    TypeParses(u, after', AnyType);
    assert |GenSig(t)| == |GenSig(u)|;
    assert GenSig(t) == (GenSig(t) + after)[..|GenSig(t)|];
    assert GenSig(u) == (GenSig(u) + after')[..|GenSig(u)|];
  }

  // ----- which types share a signature -----

  // The type with every `const char*` taken for a std::string.
  function Plain(t: Type): Type {
    match t
    case CString => String
    case Vector(e) => Vector(Plain(e))
    case Tuple(f, ts) => Tuple(Plain(f), PlainAll(ts))
    case Map(k, m) => Map(Plain(k), Plain(m))
    case _ => t
  }

  function PlainAll(ts: seq<Type>): seq<Type> {
    if ts == [] then [] else [Plain(ts[0])] + PlainAll(ts[1..])
  }

  // The type a shape is read as.
  function TypeOf(s: Shape): Type {
    match s
    case VariantShape => Variant
    case Array(e) => Vector(TypeOf(e))
    case Struct(fs) => if fs == [] then Variant else Tuple(TypeOf(fs[0]), TypesOf(fs[1..]))
    case Dict(k, v) => Map(TypeOf(k), TypeOf(v))
    case Basic(k) =>
      match k
      case Integer(signed, bits) =>
        if bits == 8 then Byte
        else if bits == 16 then (if signed then Int16 else UInt16)
        else if bits == 32 then (if signed then Int32 else UInt32)
        else (if signed then Int64 else UInt64)
      case Boolean => Bool
      case DoublePrecision => Double
      case Path => ObjectPath
      case _ => String
  }

  function TypesOf(ss: seq<Shape>): seq<Type> {
    if ss == [] then [] else [TypeOf(ss[0])] + TypesOf(ss[1..])
  }

  lemma {:induction false} ShapeTellsType(t: Type)
    ensures TypeOf(ShapeOf(t)) == Plain(t)
  {
    match t
    case Vector(e) => ShapeTellsType(e);
    case Tuple(f, ts) =>
      ShapeTellsType(f);
      ShapesTellTypes(ts);
      assert ([ShapeOf(f)] + ShapesOf(ts))[1..] == ShapesOf(ts);
    case Map(k, m) =>
      ShapeTellsType(k);
      ShapeTellsType(m);
    case _ =>
  }

  lemma {:induction false} ShapesTellTypes(ts: seq<Type>)
    ensures TypesOf(ShapesOf(ts)) == PlainAll(ts)
  {
    if ts != [] {
      ShapeTellsType(ts[0]);
      ShapesTellTypes(ts[1..]);
      assert ShapesOf(ts)[1..] == ShapesOf(ts[1..]);
    }
  }

  lemma {:induction false} PlainKeepsSignature(t: Type)
    ensures GenSig(Plain(t)) == GenSig(t)
  {
    match t
    case Vector(e) => PlainKeepsSignature(e);
    case Tuple(f, ts) =>
      PlainKeepsSignature(f);
      PlainAllKeepsSignature(ts);
    case Map(k, m) =>
      PlainKeepsSignature(k);
      PlainKeepsSignature(m);
    case _ =>
  }

  lemma {:induction false} PlainAllKeepsSignature(ts: seq<Type>)
    ensures GenSigs(PlainAll(ts)) == GenSigs(ts)
  {
    if ts != [] {
      PlainKeepsSignature(ts[0]);
      PlainAllKeepsSignature(ts[1..]);
      assert PlainAll(ts)[1..] == PlainAll(ts[1..]);
    }
  }

  /**
    Unique decoding, exactly: two types have the same signature if and only if they differ at most in
    writing a string as std::string or as `const char*`.
  */
  lemma SameSignatureIff(t: Type, u: Type)
    ensures GenSig(t) == GenSig(u) <==> Plain(t) == Plain(u)
  {
    if GenSig(t) == GenSig(u) {
      SignaturesArePrefixFree(t, u, "", "");
      ShapeTellsType(t);
      ShapeTellsType(u);
    }
    PlainKeepsSignature(t);
    PlainKeepsSignature(u);
  }
}
