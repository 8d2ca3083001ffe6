/** Encoded values and annotations: `Value`, `Array`, `AnnotationElement`,
    `EncodedAnnotation`, `Annotation`, `Visibility`, the annotations
    directory and its per-field, per-method and per-parameter holders.
    They are immutable records; every accessor returns what the
    constructor was given. */
module Values {
  import opened Base

  /** When an annotation is visible. */
  datatype Visibility = Build | Runtime | System

  /** A constant of an encoded value. The floating-point variants carry the
      raw IEEE 754 bit pattern: nothing here computes on them. The index
      variants refer into the dex file's string, type, field and method
      lists. */
  datatype Value =
    | Byte(byteValue: i8)
    | Short(shortValue: i16)
    | Char(charValue: u16)
    | Int(intValue: i32)
    | Long(longValue: i64)
    | Float(floatBits: bv32)
    | Double(doubleBits: bv64)
    | String(stringIndex: u32)
    | Type(typeIndex: u32)
    | Field(fieldIndex: u32)
    | Method(methodIndex: u32)
    | Enum(enumFieldIndex: u32)
    | Array(array: Array)
    | Annotation(annotation: EncodedAnnotation)
    | Null
    | Boolean(boolValue: bool)

  /** `Array`: a sequence of values. */
  datatype Array = Array(inner: seq<Value>)

  /** A named element of an annotation; `name_index` is `nameIndex`. */
  datatype AnnotationElement = AnnotationElement(nameIndex: u32, value: Value)

  /** An annotation body: its type and its elements; `type_index` is
      `typeIndex`, `elements` is `elements`. */
  datatype EncodedAnnotation = EncodedAnnotation(typeIndex: u32, elements: seq<AnnotationElement>)

  /** An annotation item: a visibility and an encoded annotation. */
  datatype Annotation = Annotation(visibility: Visibility, annotation: EncodedAnnotation)

  /** The annotations of one field. */
  datatype FieldAnnotations = FieldAnnotations(fieldIndex: u32, annotations: seq<Annotation>)

  /** The annotations of one method. */
  datatype MethodAnnotations = MethodAnnotations(methodIndex: u32, annotations: seq<Annotation>)

  /** The parameter annotations of one method. */
  datatype ParameterAnnotations = ParameterAnnotations(methodIndex: u32, annotations: seq<Annotation>)

  /** The annotations of a class, its fields, methods and parameters. */
  datatype AnnotationsDirectory = AnnotationsDirectory(
    classAnnotations: seq<Annotation>,
    fieldAnnotations: seq<FieldAnnotations>,
    methodAnnotations: seq<MethodAnnotations>,
    parameterAnnotations: seq<ParameterAnnotations>)

  /** The accessors of an element, an encoded annotation and an annotation
      item give back what they were built from, elements in order. */
  lemma AnnotationKeepsParts(
    name: u32, value: Value, typeIndex: u32, elements: seq<AnnotationElement>, visibility: Visibility)
    ensures AnnotationElement(name, value).nameIndex == name
    ensures AnnotationElement(name, value).value == value
    ensures EncodedAnnotation(typeIndex, elements).typeIndex == typeIndex
    ensures EncodedAnnotation(typeIndex, elements).elements == elements
    ensures Annotation.Annotation(visibility, EncodedAnnotation(typeIndex, elements)).visibility == visibility
    ensures Annotation.Annotation(visibility, EncodedAnnotation(typeIndex, elements)).annotation.elements == elements
  {
  }

  /** `AnnotationsDirectory::new` and its accessors: the lists come back
      as given, element for element; nothing is sorted, merged or dropped. */
  lemma DirectoryKeepsLists(
    ca: seq<Annotation>, fa: seq<FieldAnnotations>, ma: seq<MethodAnnotations>, pa: seq<ParameterAnnotations>)
    ensures AnnotationsDirectory(ca, fa, ma, pa).classAnnotations == ca
    ensures AnnotationsDirectory(ca, fa, ma, pa).fieldAnnotations == fa
    ensures AnnotationsDirectory(ca, fa, ma, pa).methodAnnotations == ma
    ensures AnnotationsDirectory(ca, fa, ma, pa).parameterAnnotations == pa
  {
  }

  /** Nothing checks that the per-field entries are sorted or distinct: a
      directory may list the same field twice, out of order. */
  lemma DirectoryIsNotValidated(a: Annotation)
    ensures var d := AnnotationsDirectory([], [FieldAnnotations(2, [a]), FieldAnnotations(1, []), FieldAnnotations(2, [])], [], []);
            |d.fieldAnnotations| == 3 && d.fieldAnnotations[0].fieldIndex == d.fieldAnnotations[2].fieldIndex &&
            d.fieldAnnotations[0].fieldIndex > d.fieldAnnotations[1].fieldIndex
  {
  }

  /** The holders' `new` keeps the index and the list. */
  lemma HoldersKeepContents(index: u32, annotations: seq<Annotation>)
    ensures FieldAnnotations(index, annotations).fieldIndex == index
    ensures FieldAnnotations(index, annotations).annotations == annotations
    ensures MethodAnnotations(index, annotations).methodIndex == index
    ensures MethodAnnotations(index, annotations).annotations == annotations
    ensures ParameterAnnotations(index, annotations).methodIndex == index
    ensures ParameterAnnotations(index, annotations).annotations == annotations
  {
  }
}
