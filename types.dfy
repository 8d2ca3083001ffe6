/** The `Type` of a dex type descriptor: its parser (`Type::from_str`) and
    its human-readable rendering (`Display for Type`). */
module DexTypes {
  import opened Base
  import Decimal

  /** Basic built-in types. An array is flattened: one node with its number
      of dimensions around a non-array element type. */
  datatype Type =
    | Void
    | Boolean
    | Byte
    | Short
    | Char
    | Int
    | Long
    | Float
    | Double
    | FullyQualifiedName(name: string)
    | Array(dimensions: u8, arrayType: Type)

  /** The tags that denote a primitive (or void) in a type descriptor. */
  predicate IsPrimitiveTag(c: char)
  {
    c == 'V' || c == 'Z' || c == 'B' || c == 'S' || c == 'C' || c == 'I' || c == 'J' || c == 'F' || c == 'D'
  }

  /** The tags a descriptor may start its element type with. */
  predicate IsElementTag(c: char) { IsPrimitiveTag(c) || c == 'L' }

  predicate IsPrimitive(t: Type) { !t.FullyQualifiedName? && !t.Array? }

  /** The shape the format gives a type: arrays have at least one dimension
      and their element type is not itself an array. */
  predicate WellFormed(t: Type)
  {
    t.Array? ==> t.dimensions >= 1 && !t.arrayType.Array?
  }

  /** The number of `[` characters the descriptor starts with. */
  function LeadingBrackets(s: string): (n: nat)
    ensures n <= |s|
    ensures forall i :: 0 <= i < n ==> s[i] == '['
    ensures n < |s| ==> s[n] != '['
  {
    if |s| > 0 && s[0] == '[' then 1 + LeadingBrackets(s[1..]) else 0
  }

  /** `n` array sigils. */
  function Brackets(n: nat): (b: string)
    ensures |b| == n && forall i :: 0 <= i < n ==> b[i] == '['
  {
    seq(n, _ => '[')
  }

  /** An `n`-dimensional array around a parsed element, or the element's
      parse failure unchanged (the `?` on the recursive parse). */
  function ArrayOf(n: u8, element: Result<Type>): Result<Type>
  {
    match element
    case Ok(e) => Ok(Array(n, e))
    case Err(x) => Err(x)
  }

  /** What `Type::from_str` returns for `s`. The bound on the leading `[` run
      keeps the dimension count in its `u8`. */
  function ParseType(s: string): Result<Type>
    requires LeadingBrackets(s) < 0x100
    decreases |s|
  {
    if |s| == 0 then Err(InvalidTypeDescriptor(s))
    else match s[0]
      case 'V' => Ok(Void)
      case 'Z' => Ok(Boolean)
      case 'B' => Ok(Byte)
      case 'S' => Ok(Short)
      case 'C' => Ok(Char)
      case 'I' => Ok(Int)
      case 'J' => Ok(Long)
      case 'F' => Ok(Float)
      case 'D' => Ok(Double)
      case 'L' => Ok(FullyQualifiedName(s[1..]))
      case '[' =>
        var n := LeadingBrackets(s);
        if n == |s| then Err(InvalidTypeDescriptor(s))
        else
          ArrayOf(n, ParseType(s[n..]))
      case _ => Err(InvalidTypeDescriptor(s))
  }

  /** `Type::from_str`: reads the first character as a tag; on `[` counts the
      run of `[` in a loop and parses the rest, from the first other
      character, as the element type. */
  method TypeFromStr(s: string) returns (r: Result<Type>)
    requires LeadingBrackets(s) < 0x100
    ensures r == ParseType(s)
    decreases |s|
  {
    if |s| == 0 {
      return Err(InvalidTypeDescriptor(s));
    }
    match s[0] {
      case 'V' => return Ok(Void);
      case 'Z' => return Ok(Boolean);
      case 'B' => return Ok(Byte);
      case 'S' => return Ok(Short);
      case 'C' => return Ok(Char);
      case 'I' => return Ok(Int);
      case 'J' => return Ok(Long);
      case 'F' => return Ok(Float);
      case 'D' => return Ok(Double);
      case 'L' => return Ok(FullyQualifiedName(s[1..]));
      case '[' =>
        var dimensions: u8 := 1;
        var next := 1;  // position of the character iterator in s
        while next < |s| && s[next] == '['
          invariant 1 <= next <= LeadingBrackets(s)
          invariant dimensions == next
        {
          dimensions := dimensions + 1;
          next := next + 1;
        }
        if next == |s| {
          return Err(InvalidTypeDescriptor(s));
        }
        var typeStr := [s[next]] + s[next + 1..];
        assert typeStr == s[next..];
        var element := TypeFromStr(typeStr);
        match element {
          case Ok(t) => return Ok(Array(dimensions, t));
          case Err(e) => return Err(e);
        }
      case _ => return Err(InvalidTypeDescriptor(s));
    }
  }

  /** `Display for Type`. Only a type named by the empty string renders as
      nothing, and an array's rendering closes with `]`. */
  function TypeToString(t: Type): (r: string)
    ensures r == [] <==> t == FullyQualifiedName([])
    ensures t.Array? ==> r != [] && r[|r| - 1] == ']'
  {
    match t
    case Void => "void"
    case Boolean => "boolean"
    case Byte => "byte"
    case Short => "short"
    case Char => "char"
    case Int => "int"
    case Long => "long"
    case Float => "float"
    case Double => "double"
    case FullyQualifiedName(name) => name
    case Array(n, element) => TypeToString(element) + "[" + Decimal.NatToString(n) + "]"
  }

  /** The descriptor the dex format writes for a type (TypeDescriptor
      grammar): one tag for a primitive, `L` and the name for a reference,
      one `[` per dimension before an array's element. */
  function Descriptor(t: Type): string
  {
    match t
    case Void => "V"
    case Boolean => "Z"
    case Byte => "B"
    case Short => "S"
    case Char => "C"
    case Int => "I"
    case Long => "J"
    case Float => "F"
    case Double => "D"
    case FullyQualifiedName(name) => "L" + name
    case Array(n, element) => Brackets(n) + Descriptor(element)
  }

  // ---------------------------------------------------------------------
  // Parsing

  /** A primitive tag gives its primitive whatever follows it. */
  lemma ParsePrimitive(t: Type, rest: string)
    requires IsPrimitive(t)
    ensures LeadingBrackets(Descriptor(t) + rest) == 0
    ensures ParseType(Descriptor(t) + rest) == Ok(t)
  {
  }

  /** `L` takes the whole remainder verbatim as the name; no `;` is checked
      or removed. */
  lemma ParseName(rest: string)
    ensures LeadingBrackets("L" + rest) == 0
    ensures ParseType("L" + rest) == Ok(FullyQualifiedName(rest))
  {
  }

  lemma {:induction false} LeadingBracketsOf(n: nat, tail: string)
    requires tail == [] || tail[0] != '['
    ensures LeadingBrackets(Brackets(n) + tail) == n
    decreases n
  {
    if n > 0 {
      assert (Brackets(n) + tail)[1..] == Brackets(n - 1) + tail;
      LeadingBracketsOf(n - 1, tail);
    }
  }

  /** `n` leading `[` before a non-`[` character make one flattened array of
      `n` dimensions around the type parsed from that character on; a failure
      to parse the element is returned unchanged. */
  lemma ParseArray(n: nat, c: char, rest: string)
    requires 1 <= n < 0x100 && c != '['
    ensures LeadingBrackets(Brackets(n) + [c] + rest) == n
    ensures ParseType(Brackets(n) + [c] + rest) == ArrayOf(n, ParseType([c] + rest))
  {
    var s := Brackets(n) + [c] + rest;
    assert s == Brackets(n) + ([c] + rest);
    LeadingBracketsOf(n, [c] + rest);
    assert s[n..] == [c] + rest;
  }

  /** The failure cases: the empty string, a run of `[` with nothing after
      it, and any other leading character fail with the whole input. */
  lemma ParseFailsOnWholeInput(s: string)
    requires LeadingBrackets(s) < 0x100
    requires s == [] || LeadingBrackets(s) == |s| || !(IsElementTag(s[0]) || s[0] == '[')
    ensures ParseType(s) == Err(InvalidTypeDescriptor(s))
  {
    if s != [] && LeadingBrackets(s) == |s| {
      assert s[0] == '[';
    }
  }

  /** Without a leading `[`, the first character alone decides the outcome. */
  lemma ParseWithoutBrackets(s: string)
    requires s == [] || s[0] != '['
    ensures LeadingBrackets(s) == 0
    ensures ParseType(s).Ok? <==> s != [] && IsElementTag(s[0])
    ensures ParseType(s).Err? ==> ParseType(s).error == InvalidTypeDescriptor(s)
  {
  }

  /** After a `[` run of length `n`, the element is parsed from position `n`. */
  lemma ParseAfterBrackets(s: string)
    requires 0 < LeadingBrackets(s) < |s| && LeadingBrackets(s) < 0x100
    ensures LeadingBrackets(s[LeadingBrackets(s)..]) == 0
    ensures ParseType(s) == ArrayOf(LeadingBrackets(s), ParseType(s[LeadingBrackets(s)..]))
  {
    assert s[0] == '[';
  }

  /** The full outcome of a parse: it succeeds exactly when the first
      character after the `[` run is a tag; a failure carries the whole
      input, unless the `[` run was followed by something, in which case it
      carries the element's own text. */
  lemma ParseTypeOutcome(s: string)
    requires LeadingBrackets(s) < 0x100
    ensures var n := LeadingBrackets(s);
            ParseType(s).Ok? <==> n < |s| && IsElementTag(s[n])
    ensures var n := LeadingBrackets(s);
            ParseType(s).Err? ==>
              ParseType(s).error == InvalidTypeDescriptor(if 0 < n < |s| then s[n..] else s)
  {
    var n := LeadingBrackets(s);
    if n == 0 {
      ParseWithoutBrackets(s);
    } else if n == |s| {
      ParseFailsOnWholeInput(s);
    } else {
      ParseAfterBrackets(s);
      assert s[n..][0] == s[n];
      ParseWithoutBrackets(s[n..]);
    }
  }

  /** Every parsed type is well formed: the dimension count is the length of
      the `[` run, and the element is never an array. */
  lemma ParsedIsWellFormed(s: string)
    requires LeadingBrackets(s) < 0x100
    requires ParseType(s).Ok?
    ensures WellFormed(ParseType(s).value)
    ensures ParseType(s).value.Array? <==> LeadingBrackets(s) > 0
    ensures ParseType(s).value.Array? ==> ParseType(s).value.dimensions == LeadingBrackets(s)
  {
    var n := LeadingBrackets(s);
    if n > 0 {
      assert s[n..][0] == s[n];
    }
  }

  lemma DescriptorShape(t: Type)
    requires WellFormed(t)
    ensures |Descriptor(t)| > 0
    ensures LeadingBrackets(Descriptor(t)) == (if t.Array? then t.dimensions as nat else 0)
  {
    if t.Array? {
      var d := Descriptor(t.arrayType);
      assert d[0] != '[';
      LeadingBracketsOf(t.dimensions, d);
    }
  }

  /** Parsing the format's descriptor of a well-formed type gives that type
      back. */
  lemma ParseDescriptorRoundTrip(t: Type)
    requires WellFormed(t)
    ensures LeadingBrackets(Descriptor(t)) < 0x100
    ensures ParseType(Descriptor(t)) == Ok(t)
  {
    DescriptorShape(t);
    if t.Array? {
      var d := Descriptor(t.arrayType);
      var s := Descriptor(t);
      assert s == Brackets(t.dimensions) + [d[0]] + d[1..];
      ParseArray(t.dimensions, d[0], d[1..]);
      assert [d[0]] + d[1..] == d;
    }
  }

  lemma ElementReadsDescriptorPrefix(s: string)
    requires s == [] || s[0] != '['
    requires ParseType(s).Ok?
    ensures var t := ParseType(s).value;
            !t.Array? && Descriptor(t) <= s && (t.FullyQualifiedName? ==> Descriptor(t) == s)
  {
    var t := ParseType(s).value;
    if t.FullyQualifiedName? {
      assert s == [s[0]] + s[1..];
    } else {
      assert Descriptor(t) == s[..1];
    }
  }

  /** Conversely, a successful parse read the descriptor of its result from
      the front of the input, and a name, or an array of names, reads all of
      the input; after a primitive tag, the characters that follow may be
      ignored. */
  lemma ParseReadsDescriptorPrefix(s: string)
    requires LeadingBrackets(s) < 0x100
    requires ParseType(s).Ok?
    ensures var t := ParseType(s).value;
            Descriptor(t) <= s
    ensures var t := ParseType(s).value;
            (t.FullyQualifiedName? || (t.Array? && t.arrayType.FullyQualifiedName?)) ==> Descriptor(t) == s
  {
    var n := LeadingBrackets(s);
    if n == 0 {
      ElementReadsDescriptorPrefix(s);
    } else {
      ParseAfterBrackets(s);
      var rest := s[n..];
      assert rest[0] == s[n];
      ElementReadsDescriptorPrefix(rest);
      BracketsThenElement(s, n, ParseType(rest).value);
    }
  }

  /** An element read from just after an `n`-long `[` run: its array
      descriptor is read from the front of the whole input. */
  lemma BracketsThenElement(s: string, n: nat, e: Type)
    requires 0 < n < 0x100 && n <= |s| && forall i :: 0 <= i < n ==> s[i] == '['
    requires Descriptor(e) <= s[n..] && (e.FullyQualifiedName? ==> Descriptor(e) == s[n..])
    ensures Descriptor(Array(n, e)) <= s
    ensures e.FullyQualifiedName? ==> Descriptor(Array(n, e)) == s
  {
    assert Brackets(n) == s[..n];
    assert s == s[..n] + s[n..];
  }

  // ---------------------------------------------------------------------
  // Rendering

  /** The primitives render as their Java keywords. */
  lemma RenderPrimitiveDescriptors()
    ensures TypeToString(ParseType("V").value) == "void"
    ensures TypeToString(ParseType("Z").value) == "boolean"
    ensures TypeToString(ParseType("B").value) == "byte"
    ensures TypeToString(ParseType("S").value) == "short"
    ensures TypeToString(ParseType("C").value) == "char"
    ensures TypeToString(ParseType("I").value) == "int"
    ensures TypeToString(ParseType("J").value) == "long"
    ensures TypeToString(ParseType("F").value) == "float"
    ensures TypeToString(ParseType("D").value) == "double"
  {
  }

  /** A parsed reference renders as exactly the text after its `L`. */
  lemma RenderName(rest: string)
    ensures LeadingBrackets("L" + rest) == 0
    ensures TypeToString(ParseType("L" + rest).value) == rest
  {
  }

  /** An array renders as its element followed by `[n]`, and the digits
      between the brackets read back as its dimension count. */
  lemma RenderArray(n: u8, element: Type)
    ensures var r := TypeToString(Array(n, element));
            var k := |TypeToString(element)|;
            k + 3 <= |r| && r[..k] == TypeToString(element) && r[k] == '[' && r[|r| - 1] == ']' &&
            Decimal.AllDigits(r[k + 1..|r| - 1]) && Decimal.DigitsValue(r[k + 1..|r| - 1]) == n as nat
  {
    var r := TypeToString(Array(n, element));
    var k := |TypeToString(element)|;
    assert r[k + 1..|r| - 1] == Decimal.NatToString(n);
    Decimal.NatToStringRoundTrip(n);
  }

  /** Parsing `[`^n then an element descriptor and rendering the result
      gives the element's rendering followed by `[n]`. */
  lemma RenderParsedArray(n: nat, c: char, rest: string)
    requires 1 <= n < 0x100 && c != '['
    requires ParseType([c] + rest).Ok?
    ensures LeadingBrackets(Brackets(n) + [c] + rest) == n
    ensures ParseType(Brackets(n) + [c] + rest).Ok?
    ensures TypeToString(ParseType(Brackets(n) + [c] + rest).value) ==
            TypeToString(ParseType([c] + rest).value) + "[" + Decimal.NatToString(n) + "]"
  {
    ParseArray(n, c, rest);
  }
}
