/** The DAP4 data model as values: what a DMR document says, independent of how libdap
    stores it. */
module DmrTree {

  /** The `Type` codes a DMR can name. */
  datatype Type =
    | NullT | ByteT | CharT | Int8T | UInt8T | Int16T | UInt16T | Int32T | UInt32T
    | Int64T | UInt64T | Float32T | Float64T | StrT | UrlT | EnumT | OpaqueT
    | ArrayT | StructureT | SequenceT | GridT | GroupT

  predicate IsSimpleType(t: Type) {
    t !in {NullT, ArrayT, StructureT, SequenceT, GridT, GroupT}
  }

  predicate IsIntegerType(t: Type) {
    t in {ByteT, CharT, Int8T, UInt8T, Int16T, UInt16T, Int32T, UInt32T, Int64T, UInt64T}
  }

  /** The DAP4 spelling of a type. */
  function TypeName(t: Type): string {
    match t
    case NullT => "Null"
    case ByteT => "Byte"
    case CharT => "Char"
    case Int8T => "Int8"
    case UInt8T => "UInt8"
    case Int16T => "Int16"
    case UInt16T => "UInt16"
    case Int32T => "Int32"
    case UInt32T => "UInt32"
    case Int64T => "Int64"
    case UInt64T => "UInt64"
    case Float32T => "Float32"
    case Float64T => "Float64"
    case StrT => "String"
    case UrlT => "URL"
    case EnumT => "Enum"
    case OpaqueT => "Opaque"
    case ArrayT => "Array"
    case StructureT => "Structure"
    case SequenceT => "Sequence"
    case GridT => "Grid"
    case GroupT => "Group"
  }

  /** get_type: both spellings of URL are known, "Group" and anything else are not. */
  function GetType(name: string): Type {
    if name == "Byte" then ByteT
    else if name == "Char" then CharT
    else if name == "Int8" then Int8T
    else if name == "UInt8" then UInt8T
    else if name == "Int16" then Int16T
    else if name == "UInt16" then UInt16T
    else if name == "Int32" then Int32T
    else if name == "UInt32" then UInt32T
    else if name == "Int64" then Int64T
    else if name == "UInt64" then UInt64T
    else if name == "Float32" then Float32T
    else if name == "Float64" then Float64T
    else if name == "String" then StrT
    else if name == "Url" || name == "URL" then UrlT
    else if name == "Enum" then EnumT
    else if name == "Opaque" then OpaqueT
    else if name == "Array" then ArrayT
    else if name == "Structure" then StructureT
    else if name == "Sequence" then SequenceT
    else if name == "Grid" then GridT
    else NullT
  }

  /** Every type but Group reads back from its printed name. */
  lemma TypeNameReads(t: Type)
    ensures GetType(TypeName(t)) == t <==> t != GroupT
  {
    match t
    case NullT => assert "Null"[0] == 'N';
    case GroupT => assert "Group"[0] == 'G' && "Group"[2] != "Grid"[2];
    case _ =>
  }

  /** The types of DAP4 attributes. */
  datatype AttrType =
    | NullA | ByteA | Int16A | UInt16A | Int32A | UInt32A | Float32A | Float64A | StrA | UrlA
    | Int8A | UInt8A | Int64A | UInt64A | EnumA | OpaqueA | ContainerA | OtherXmlA

  datatype Attr =
    | Leaf(name: string, typ: AttrType, values: seq<string>)
    | Container(name: string, attrs: seq<Attr>)

  /** An extent: a number, or the full path of a shared dimension (groups, then its name). */
  datatype Dim = Sized(size: int) | Named(path: seq<string>)

  datatype DimDef = DimDef(name: string, size: int)

  datatype EnumConst = EnumConst(tag: string, value: int)

  datatype EnumDef = EnumDef(name: string, basetype: Type, consts: seq<EnumConst>)

  /** A variable; it is an array exactly when it has dimensions. */
  datatype Var =
    | Simple(typ: Type, name: string, enumPath: seq<string>, dims: seq<Dim>, attrs: seq<Attr>)
    | Ctor(sequence: bool, name: string, members: seq<Var>, dims: seq<Dim>, attrs: seq<Attr>)

  datatype Group = Group(name: string, dims: seq<DimDef>, enums: seq<EnumDef>, vars: seq<Var>,
                         attrs: seq<Attr>, groups: seq<Group>)

  /** The Dataset: its name and the contents of the root group, which is always called "/". */
  datatype Dmr = Dmr(name: string, root: Group)

  /** D4EnumDef::is_valid_enum_value. */
  predicate IsValidEnumValue(t: Type, v: int) {
    match t
    case Int8T => -0x80 <= v <= 0x7f
    case ByteT => 0 <= v <= 0xff
    case UInt8T => 0 <= v <= 0xff
    case Int16T => -0x8000 <= v <= 0x7fff
    case UInt16T => 0 <= v <= 0xffff
    case Int32T => -0x8000_0000 <= v <= 0x7fff_ffff
    case UInt32T => 0 <= v <= 0xffff_ffff
    case Int64T => true
    case UInt64T => 0 <= v
    case _ => false
  }

  /** D4AttributeTypeToString. */
  function AttrTypeName(t: AttrType): string {
    match t
    case NullA => "null"
    case ByteA => "Byte"
    case Int16A => "Int16"
    case UInt16A => "UInt16"
    case Int32A => "Int32"
    case UInt32A => "UInt32"
    case Float32A => "Float32"
    case Float64A => "Float64"
    case StrA => "String"
    case UrlA => "Url"
    case Int8A => "Int8"
    case UInt8A => "UInt8"
    case Int64A => "Int64"
    case UInt64A => "UInt64"
    case EnumA => "Enum"
    case OpaqueA => "Opaque"
    case ContainerA => "Container"
    case OtherXmlA => "OtherXML"
  }

  function Downcase(s: string): string {
    seq(|s|, i requires 0 <= i < |s| =>
      if 'A' <= s[i] <= 'Z' then (s[i] as int + 32) as char else s[i])
  }

  /** StringToD4AttributeType: letter case is ignored and unknown names give the null type. */
  function AttrTypeOf(s: string): AttrType {
    var d := Downcase(s);
    if d == "container" then ContainerA
    else if d == "byte" then ByteA
    else if d == "int8" then Int8A
    else if d == "uint8" then UInt8A
    else if d == "int16" then Int16A
    else if d == "uint16" then UInt16A
    else if d == "int32" then Int32A
    else if d == "uint32" then UInt32A
    else if d == "int64" then Int64A
    else if d == "uint64" then UInt64A
    else if d == "float32" then Float32A
    else if d == "float64" then Float64A
    else if d == "string" then StrA
    else if d == "url" then UrlA
    else if d == "otherxml" then OtherXmlA
    else NullA
  }

  function LowerAttrTypeName(t: AttrType): string {
    match t
    case NullA => "null"
    case ByteA => "byte"
    case Int16A => "int16"
    case UInt16A => "uint16"
    case Int32A => "int32"
    case UInt32A => "uint32"
    case Float32A => "float32"
    case Float64A => "float64"
    case StrA => "string"
    case UrlA => "url"
    case Int8A => "int8"
    case UInt8A => "uint8"
    case Int64A => "int64"
    case UInt64A => "uint64"
    case EnumA => "enum"
    case OpaqueA => "opaque"
    case ContainerA => "container"
    case OtherXmlA => "otherxml"
  }

  lemma DowncaseName(t: AttrType)
    ensures Downcase(AttrTypeName(t)) == LowerAttrTypeName(t)
  {
    match t
    case NullA => assert Downcase("null") == "null";
    case ByteA => assert Downcase("Byte") == "byte";
    case Int16A => assert Downcase("Int16") == "int16";
    case UInt16A => assert Downcase("UInt16") == "uint16";
    case Int32A => assert Downcase("Int32") == "int32";
    case UInt32A => assert Downcase("UInt32") == "uint32";
    case Float32A => assert Downcase("Float32") == "float32";
    case Float64A => assert Downcase("Float64") == "float64";
    case StrA => assert Downcase("String") == "string";
    case UrlA => assert Downcase("Url") == "url";
    case Int8A => assert Downcase("Int8") == "int8";
    case UInt8A => assert Downcase("UInt8") == "uint8";
    case Int64A => assert Downcase("Int64") == "int64";
    case UInt64A => assert Downcase("UInt64") == "uint64";
    case EnumA => assert Downcase("Enum") == "enum";
    case OpaqueA => assert Downcase("Opaque") == "opaque";
    case ContainerA => assert Downcase("Container") == "container";
    case OtherXmlA => assert Downcase("OtherXML") == "otherxml";
  }

  /** Two texts read alike when they differ at most in the case of the letters A to Z. */
  lemma CaseExact(a: string, b: string)
    requires |a| == |b|
    ensures Downcase(a) == Downcase(b) <==> forall i :: 0 <= i < |a| ==> SameLetter(a[i], b[i])
  {
    var x, y := Downcase(a), Downcase(b);
    assert forall i :: 0 <= i < |a| ==> (x[i] == y[i] <==> SameLetter(a[i], b[i]));
    if forall i :: 0 <= i < |a| ==> SameLetter(a[i], b[i]) { assert x == y; }
  }

  /** The same character, or a letter from A to Z and its small form. */
  predicate SameLetter(c: char, d: char) {
    || c == d
    || ('A' <= c <= 'Z' && d as int == c as int + 32)
    || ('A' <= d <= 'Z' && c as int == d as int + 32)
  }

  /** A type is read from exactly the spellings of its name, whatever the case of their
      letters; every other text gives the null type. */
  lemma AttrTypeExact(s: string, t: AttrType)
    requires t !in {NullA, EnumA, OpaqueA}
    ensures AttrTypeOf(s) == t <==> Downcase(s) == LowerAttrTypeName(t)
  {
    hide Downcase;
    assert "otherxml"[1] == 't' && "int16"[3] == '1' && "int32"[3] == '3' && "int64"[3] == '6';
    assert "uint16"[4] == '1' && "uint32"[4] == '3' && "uint64"[4] == '6' && "float32"[5] == '3' && "float64"[5] == '6';
  }

  /** An attribute type survives printing and reading exactly when it is neither Enum nor
      Opaque; those two come back as the null type. */
  lemma AttrTypeReads(t: AttrType)
    ensures AttrTypeOf(AttrTypeName(t)) == t <==> t !in {EnumA, OpaqueA}
    ensures t in {EnumA, OpaqueA} ==> AttrTypeOf(AttrTypeName(t)) == NullA
  {
    DowncaseName(t);
    assert "enum"[0] == 'e' && "opaque"[0] == 'o' && "otherxml"[1] == 't' && "null"[0] == 'n';
  }
}
