/** `Class`: one class definition of a dex file, an immutable record. The
    decoded class body (`ClassData`, read by a submodule that is not part
    of this model) is a type parameter. */
module Classes {
  import opened Base
  import DexTypes
  import Flags
  import Values

  datatype Class<ClassData> = Class(
    classIndex: u32,
    accessFlags: Flags.AccessFlags,
    superclassIndex: Option<u32>,
    interfaces: seq<DexTypes.Type>,
    sourceFileIndex: Option<u32>,
    annotations: Option<Values.AnnotationsDirectory>,
    classData: Option<ClassData>,
    staticValues: Option<Values.Array>)

  /** `Class::new` and its eight accessors: every field comes back as given,
      the interface list in its order, and an absent superclass, source
      file, annotations directory, class body or static-value array stays
      absent. */
  lemma ClassKeepsFields<D>(
    classIndex: u32, accessFlags: Flags.AccessFlags, superclassIndex: Option<u32>,
    interfaces: seq<DexTypes.Type>, sourceFileIndex: Option<u32>,
    annotations: Option<Values.AnnotationsDirectory>, classData: Option<D>,
    staticValues: Option<Values.Array>)
    ensures var c := Class(classIndex, accessFlags, superclassIndex, interfaces, sourceFileIndex,
                           annotations, classData, staticValues);
            c.classIndex == classIndex && c.accessFlags == accessFlags &&
            c.superclassIndex == superclassIndex && c.interfaces == interfaces &&
            c.sourceFileIndex == sourceFileIndex && c.annotations == annotations &&
            c.classData == classData && c.staticValues == staticValues
  {
  }
}
