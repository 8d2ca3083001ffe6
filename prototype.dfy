/** `Prototype`: a method prototype, made of its shorty descriptor, its
    return type and its optional parameter list. `Prototype::new` stores
    the three parts as given and checks nothing. */
module Prototypes {
  import opened Base
  import DexTypes
  import Shorty

  datatype Prototype = Prototype(
    descriptor: Shorty.ShortyDescriptor,
    returnType: DexTypes.Type,
    parameters: Option<seq<DexTypes.Type>>)

  /** `Prototype::new`; the parameter argument is anything convertible into
      an optional list, which the model takes already converted. */
  function NewPrototype(
    descriptor: Shorty.ShortyDescriptor, returnType: DexTypes.Type, parameters: Option<seq<DexTypes.Type>>): (p: Prototype)
    ensures p.descriptor == descriptor && p.returnType == returnType && p.parameters == parameters
  {
    Prototype(descriptor, returnType, parameters)
  }

  /** The parameter list a prototype stands for: none means no parameters. */
  function ParameterList(p: Prototype): seq<DexTypes.Type>
  {
    if p.parameters.Some? then p.parameters.value else []
  }

  /** The shorty descriptor agrees with the full types: the return tag is the
      return type's, and there is one parameter tag per parameter, naming
      that parameter's category. */
  predicate Consistent(p: Prototype)
  {
    var params := ParameterList(p);
    p.descriptor.returnType == Shorty.ReturnTypeOfType(p.returnType) &&
    |p.descriptor.fieldTypes| == |params| &&
    forall i :: 0 <= i < |params| ==>
      Shorty.ReturnTypeOfField(p.descriptor.fieldTypes[i]) == Shorty.ReturnTypeOfType(params[i])
  }

  /** The constructor does not check consistency: a prototype whose shorty
      says `V` but whose return type is `int` is built all the same. */
  lemma NewDoesNotValidate()
    ensures !Consistent(NewPrototype(Shorty.ShortyDescriptor(Shorty.ShortyReturnType.Void, []), DexTypes.Int, None))
  {
  }

  /** The shorty text the full types determine: each type's return tag,
      with 'L' for names and arrays. */
  function ShortyOfTypes(returnType: DexTypes.Type, params: seq<DexTypes.Type>): (s: string)
    ensures |s| == |params| + 1
  {
    [Shorty.ReturnTypeChar(Shorty.ReturnTypeOfType(returnType))] +
    seq(|params|, i requires 0 <= i < |params| => Shorty.ReturnTypeChar(Shorty.ReturnTypeOfType(params[i])))
  }

  lemma ReturnTypeCharInjective(a: Shorty.ShortyReturnType, b: Shorty.ShortyReturnType)
    requires Shorty.ReturnTypeChar(a) == Shorty.ReturnTypeChar(b)
    ensures a == b
  {
    Shorty.ReturnTypeCharRoundTrip(a);
    Shorty.ReturnTypeCharRoundTrip(b);
  }

  /** A prototype is consistent exactly when its shorty text is the one its
      full types determine. */
  lemma ConsistentIffShortyMatches(p: Prototype)
    ensures Consistent(p) <==> Shorty.ShortyToString(p.descriptor) == ShortyOfTypes(p.returnType, ParameterList(p))
  {
    var params := ParameterList(p);
    var d := p.descriptor;
    var s := Shorty.ShortyToString(d);
    var t := ShortyOfTypes(p.returnType, params);
    if Consistent(p) {
      forall i | 0 <= i < |s| ensures s[i] == t[i] {
        if i > 0 {
          assert Shorty.ReturnTypeOfField(d.fieldTypes[i - 1]) == Shorty.ReturnTypeOfType(params[i - 1]);
        }
      }
    }
    if s == t {
      assert s[0] == t[0];
      ReturnTypeCharInjective(d.returnType, Shorty.ReturnTypeOfType(p.returnType));
      forall i | 0 <= i < |params|
        ensures Shorty.ReturnTypeOfField(d.fieldTypes[i]) == Shorty.ReturnTypeOfType(params[i])
      {
        assert s[i + 1] == t[i + 1];
        ReturnTypeCharInjective(Shorty.ReturnTypeOfField(d.fieldTypes[i]), Shorty.ReturnTypeOfType(params[i]));
      }
    }
  }
}
