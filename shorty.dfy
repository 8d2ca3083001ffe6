/** Shorty descriptors (`ShortyDescriptor::from_str`), their tag tables
    (`from_char`) and the conversions of a full type or a parameter tag into
    a return tag. */
module Shorty {
  import opened Base
  import DexTypes

  /** Return tag: void or one of eight value categories; every reference
      type is `Reference`. */
  datatype ShortyReturnType = Void | Boolean | Byte | Short | Char | Int | Long | Float | Double | Reference

  /** Parameter tag: the same categories without void. */
  datatype ShortyFieldType = Boolean | Byte | Short | Char | Int | Long | Float | Double | Reference

  datatype ShortyDescriptor = ShortyDescriptor(returnType: ShortyReturnType, fieldTypes: seq<ShortyFieldType>)

  predicate IsFieldTag(c: char)
  {
    c == 'Z' || c == 'B' || c == 'S' || c == 'C' || c == 'I' || c == 'J' || c == 'F' || c == 'D' || c == 'L'
  }

  predicate IsReturnTag(c: char) { c == 'V' || IsFieldTag(c) }

  /** The character the shorty grammar writes for a return tag. */
  function ReturnTypeChar(r: ShortyReturnType): char
  {
    match r
    case Void => 'V'
    case Boolean => 'Z'
    case Byte => 'B'
    case Short => 'S'
    case Char => 'C'
    case Int => 'I'
    case Long => 'J'
    case Float => 'F'
    case Double => 'D'
    case Reference => 'L'
  }

  /** The character the shorty grammar writes for a parameter tag. */
  function FieldTypeChar(f: ShortyFieldType): char
  {
    match f
    case Boolean => 'Z'
    case Byte => 'B'
    case Short => 'S'
    case Char => 'C'
    case Int => 'I'
    case Long => 'J'
    case Float => 'F'
    case Double => 'D'
    case Reference => 'L'
  }

  /** `ShortyReturnType::from_char`: ten tags, anything else is an
      `InvalidShortyType` carrying the character. */
  function ReturnTypeFromChar(c: char): (r: Result<ShortyReturnType>)
    ensures r.Ok? <==> IsReturnTag(c)
    ensures r.Ok? ==> ReturnTypeChar(r.value) == c
    ensures r.Err? ==> r.error == InvalidShortyType(c)
  {
    match c
    case 'V' => Ok(ShortyReturnType.Void)
    case 'Z' => Ok(ShortyReturnType.Boolean)
    case 'B' => Ok(ShortyReturnType.Byte)
    case 'S' => Ok(ShortyReturnType.Short)
    case 'C' => Ok(ShortyReturnType.Char)
    case 'I' => Ok(ShortyReturnType.Int)
    case 'J' => Ok(ShortyReturnType.Long)
    case 'F' => Ok(ShortyReturnType.Float)
    case 'D' => Ok(ShortyReturnType.Double)
    case 'L' => Ok(ShortyReturnType.Reference)
    case _ => Err(InvalidShortyType(c))
  }

  /** `ShortyFieldType::from_char`: nine tags (not `V`), anything else is an
      `InvalidShortyType` carrying the character. */
  function FieldTypeFromChar(c: char): (r: Result<ShortyFieldType>)
    ensures r.Ok? <==> IsFieldTag(c)
    ensures r.Ok? ==> FieldTypeChar(r.value) == c
    ensures r.Err? ==> r.error == InvalidShortyType(c)
  {
    match c
    case 'Z' => Ok(ShortyFieldType.Boolean)
    case 'B' => Ok(ShortyFieldType.Byte)
    case 'S' => Ok(ShortyFieldType.Short)
    case 'C' => Ok(ShortyFieldType.Char)
    case 'I' => Ok(ShortyFieldType.Int)
    case 'J' => Ok(ShortyFieldType.Long)
    case 'F' => Ok(ShortyFieldType.Float)
    case 'D' => Ok(ShortyFieldType.Double)
    case 'L' => Ok(ShortyFieldType.Reference)
    case _ => Err(InvalidShortyType(c))
  }

  /** `From<Type> for ShortyReturnType`: names and arrays collapse to
      `Reference`, each primitive keeps its own tag. */
  function ReturnTypeOfType(t: DexTypes.Type): (r: ShortyReturnType)
    ensures r == ShortyReturnType.Reference <==> (t.FullyQualifiedName? || t.Array?)
    ensures DexTypes.IsPrimitive(t) ==> [ReturnTypeChar(r)] == DexTypes.Descriptor(t)
  {
    match t
    case Void => ShortyReturnType.Void
    case Boolean => ShortyReturnType.Boolean
    case Byte => ShortyReturnType.Byte
    case Short => ShortyReturnType.Short
    case Char => ShortyReturnType.Char
    case Int => ShortyReturnType.Int
    case Long => ShortyReturnType.Long
    case Float => ShortyReturnType.Float
    case Double => ShortyReturnType.Double
    case FullyQualifiedName(_) => ShortyReturnType.Reference
    case Array(_, _) => ShortyReturnType.Reference
  }

  /** `From<ShortyFieldType> for ShortyReturnType`: the same category, never
      void. */
  function ReturnTypeOfField(f: ShortyFieldType): (r: ShortyReturnType)
    ensures r != ShortyReturnType.Void
    ensures ReturnTypeChar(r) == FieldTypeChar(f)
  {
    match f
    case Boolean => ShortyReturnType.Boolean
    case Byte => ShortyReturnType.Byte
    case Short => ShortyReturnType.Short
    case Char => ShortyReturnType.Char
    case Int => ShortyReturnType.Int
    case Long => ShortyReturnType.Long
    case Float => ShortyReturnType.Float
    case Double => ShortyReturnType.Double
    case Reference => ShortyReturnType.Reference
  }

  /** The parameter tags of `s`, each by `FieldTypeFromChar`, stopping at the
      first failure. */
  function ParseFieldTypes(s: string): Result<seq<ShortyFieldType>>
  {
    if s == [] then Ok([])
    else
      match FieldTypeFromChar(s[0])
      case Err(e) => Err(e)
      case Ok(f) => Prepend(f, ParseFieldTypes(s[1..]))
  }

  function Prepend(f: ShortyFieldType, rest: Result<seq<ShortyFieldType>>): Result<seq<ShortyFieldType>>
  {
    match rest
    case Err(e) => Err(e)
    case Ok(fs) => Ok([f] + fs)
  }

  /** What `ShortyDescriptor::from_str` returns for `s`. */
  function ParseShorty(s: string): Result<ShortyDescriptor>
  {
    if s == [] then Err(InvalidShortyDescriptor(s))
    else
      match ReturnTypeFromChar(s[0])
      case Err(e) => Err(e)
      case Ok(returnType) =>
        match ParseFieldTypes(s[1..])
        case Err(e) => Err(e)
        case Ok(fieldTypes) => Ok(ShortyDescriptor(returnType, fieldTypes))
  }

  /** `ShortyDescriptor::from_str`: the mandatory return tag, then a loop
      pushing one parameter tag per remaining character, returning at the
      first bad one. */
  method ShortyFromStr(s: string) returns (r: Result<ShortyDescriptor>)
    ensures r == ParseShorty(s)
  {
    if |s| == 0 {
      return Err(InvalidShortyDescriptor(s));
    }
    var returnType := ReturnTypeFromChar(s[0]);
    if returnType.Err? {
      return Err(returnType.error);
    }
    var fieldTypes: seq<ShortyFieldType> := [];
    var i := 1;
    ParseFieldTypesOutcome(s[1..]);
    while i < |s|
      invariant 1 <= i <= |s|
      invariant |fieldTypes| == i - 1
      invariant forall k :: 1 <= k < i ==> IsFieldTag(s[k]) && fieldTypes[k - 1] == FieldTypeFromChar(s[k]).value
    {
      var fieldType := FieldTypeFromChar(s[i]);
      if fieldType.Err? {
        assert s[1..][i - 1] == s[i];
        return Err(fieldType.error);
      }
      fieldTypes := fieldTypes + [fieldType.value];
      i := i + 1;
    }
    var parsed := ParseFieldTypes(s[1..]);
    assert forall k :: 0 <= k < |s| - 1 ==> s[1..][k] == s[k + 1];
    assert forall k :: 0 <= k < |s| - 1 ==> IsFieldTag(s[1..][k]);
    assert parsed.Ok? && |parsed.value| == |fieldTypes|;
    forall k | 0 <= k < |fieldTypes| ensures parsed.value[k] == fieldTypes[k] {
      assert s[1..][k] == s[k + 1];
    }
    assert parsed.value == fieldTypes;
    return Ok(ShortyDescriptor(returnType.value, fieldTypes));
  }

  /** The parameter-tag parse succeeds exactly when every character is a
      parameter tag, and then keeps length and order; otherwise it fails
      with the first character that is not one. */
  lemma {:induction false} ParseFieldTypesOutcome(t: string)
    ensures ParseFieldTypes(t).Ok? <==> forall i :: 0 <= i < |t| ==> IsFieldTag(t[i])
    ensures ParseFieldTypes(t).Ok? ==>
              |ParseFieldTypes(t).value| == |t| &&
              forall i :: 0 <= i < |t| ==> ParseFieldTypes(t).value[i] == FieldTypeFromChar(t[i]).value
    ensures ParseFieldTypes(t).Err? ==>
              exists k :: 0 <= k < |t| && !IsFieldTag(t[k]) && (forall j :: 0 <= j < k ==> IsFieldTag(t[j])) &&
                          ParseFieldTypes(t).error == InvalidShortyType(t[k])
  {
    if t != [] {
      ParseFieldTypesOutcome(t[1..]);
      if IsFieldTag(t[0]) && ParseFieldTypes(t[1..]).Err? {
        var k :| 0 <= k < |t[1..]| && !IsFieldTag(t[1..][k]) && (forall j :: 0 <= j < k ==> IsFieldTag(t[1..][j])) &&
                 ParseFieldTypes(t[1..]).error == InvalidShortyType(t[1..][k]);
        assert !IsFieldTag(t[k + 1]) && forall j :: 0 <= j < k + 1 ==> IsFieldTag(t[j]);
      } else if IsFieldTag(t[0]) {
        assert forall i :: 1 <= i < |t| ==> t[i] == t[1..][i - 1];
      }
    }
  }

  /** The outcome of a shorty parse: the empty string fails with the whole
      input; a bad first character, or a later one outside the nine
      parameter tags (so a later `V` too), fails with the first such
      character; a success has the first character's return tag and one
      parameter tag per later character, in order. */
  lemma ParseShortyOutcome(s: string)
    ensures s == [] ==> ParseShorty(s) == Err(InvalidShortyDescriptor(s))
    ensures s != [] && !IsReturnTag(s[0]) ==> ParseShorty(s) == Err(InvalidShortyType(s[0]))
    ensures ParseShorty(s).Ok? <==> s != [] && IsReturnTag(s[0]) && forall i :: 1 <= i < |s| ==> IsFieldTag(s[i])
    ensures ParseShorty(s).Ok? ==>
              var d := ParseShorty(s).value;
              d.returnType == ReturnTypeFromChar(s[0]).value && |d.fieldTypes| == |s| - 1 &&
              forall i :: 1 <= i < |s| ==> d.fieldTypes[i - 1] == FieldTypeFromChar(s[i]).value
    ensures s != [] && IsReturnTag(s[0]) && ParseShorty(s).Err? ==>
              exists k :: 1 <= k < |s| && !IsFieldTag(s[k]) && (forall j :: 1 <= j < k ==> IsFieldTag(s[j])) &&
                          ParseShorty(s) == Err(InvalidShortyType(s[k]))
  {
    if s != [] {
      var t := s[1..];
      ParseFieldTypesOutcome(t);
      assert forall i :: 1 <= i < |s| ==> s[i] == t[i - 1];
      if IsReturnTag(s[0]) && ParseFieldTypes(t).Err? {
        var k :| 0 <= k < |t| && !IsFieldTag(t[k]) && (forall j :: 0 <= j < k ==> IsFieldTag(t[j])) &&
                 ParseFieldTypes(t).error == InvalidShortyType(t[k]);
        assert !IsFieldTag(s[k + 1]) && (forall j :: 1 <= j < k + 1 ==> IsFieldTag(s[j]));
      }
    }
  }

  /** The shorty text of a descriptor: the return tag's character, then one
      character per parameter tag. */
  function ShortyToString(d: ShortyDescriptor): (s: string)
    ensures |s| == |d.fieldTypes| + 1
  {
    [ReturnTypeChar(d.returnType)] + seq(|d.fieldTypes|, i requires 0 <= i < |d.fieldTypes| => FieldTypeChar(d.fieldTypes[i]))
  }

  lemma ReturnTypeCharRoundTrip(r: ShortyReturnType)
    ensures ReturnTypeFromChar(ReturnTypeChar(r)) == Ok(r)
  {
  }

  lemma FieldTypeCharRoundTrip(f: ShortyFieldType)
    ensures FieldTypeFromChar(FieldTypeChar(f)) == Ok(f)
  {
  }

  /** Every shorty descriptor is recovered by parsing its text. */
  lemma ShortyRoundTrip(d: ShortyDescriptor)
    ensures ParseShorty(ShortyToString(d)) == Ok(d)
  {
    var s := ShortyToString(d);
    ReturnTypeCharRoundTrip(d.returnType);
    forall i | 1 <= i < |s|
      ensures IsFieldTag(s[i]) && FieldTypeFromChar(s[i]).value == d.fieldTypes[i - 1]
    {
      FieldTypeCharRoundTrip(d.fieldTypes[i - 1]);
    }
    ParseShortyOutcome(s);
    var parsed := ParseShorty(s).value.fieldTypes;
    forall k | 0 <= k < |d.fieldTypes| ensures parsed[k] == d.fieldTypes[k] {
      assert s[k + 1] == FieldTypeChar(d.fieldTypes[k]);
    }
    assert parsed == d.fieldTypes;
  }

  /** Every successfully parsed string is the text of its result: the parse
      reads the whole input and loses nothing. */
  lemma ShortyParseIsExact(s: string)
    requires ParseShorty(s).Ok?
    ensures ShortyToString(ParseShorty(s).value) == s
  {
    ParseShortyOutcome(s);
    var d := ParseShorty(s).value;
    var r := ShortyToString(d);
    forall i | 0 <= i < |s| ensures r[i] == s[i] {
      if i > 0 {
        assert r[i] == FieldTypeChar(d.fieldTypes[i - 1]);
      }
    }
  }

  /** The tag tables agree: a character is a parameter tag exactly when it
      is a return tag other than `V`, and converting its parameter tag gives
      its return tag. */
  lemma FieldTagsAreReturnTags(c: char)
    ensures FieldTypeFromChar(c).Ok? <==> ReturnTypeFromChar(c).Ok? && c != 'V'
    ensures FieldTypeFromChar(c).Ok? ==> ReturnTypeFromChar(c) == Ok(ReturnTypeOfField(FieldTypeFromChar(c).value))
  {
  }

  /** The shorty character of a type descriptor is its first character, with
      `[` replaced by `L`; the tag of a parsed type is the tag of that
      character. */
  lemma ReturnTypeOfParsedType(s: string)
    requires DexTypes.LeadingBrackets(s) < 0x100
    requires DexTypes.ParseType(s).Ok?
    ensures s != []
    ensures ReturnTypeFromChar(if s[0] == '[' then 'L' else s[0]) == Ok(ReturnTypeOfType(DexTypes.ParseType(s).value))
  {
    DexTypes.ParseTypeOutcome(s);
    DexTypes.ParsedIsWellFormed(s);
  }
}
