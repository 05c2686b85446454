/**
 * The Java declarations the converters annotate: classes, their fields and
 * their constructors. Each declaration owns an ordered annotation list that
 * the converters change in place; its fields, constructors and parameter
 * count are fixed for the run.
 */
module Psi {
  import opened Wrappers

  /**
   * An annotation as the host shows it: its source text and the qualified
   * name the host resolved it to (nothing when the host could not tell).
   */
  datatype Annotation = Annotation(text: string, qualifiedName: Option<string>)

  /** `createAnnotationFromText`: an annotation, or nothing when the text does not parse. */
  type Creator = string -> Option<Annotation>

  class Decl {
    /** The modifier list's annotations, first to last. */
    var annotations: seq<Annotation>
    /** `findFieldByName(name, false)`: the fields declared in this class, by name. */
    const fields: map<string, Decl>
    /** `getConstructors()`, in declaration order. */
    const constructors: seq<Decl>
    /** For a constructor, the number of its parameters. */
    const parameterCount: nat

    constructor (annotations: seq<Annotation>, fields: map<string, Decl>, constructors: seq<Decl>, parameterCount: nat)
      ensures this.annotations == annotations && this.fields == fields
      ensures this.constructors == constructors && this.parameterCount == parameterCount
    {
      this.annotations := annotations;
      this.fields := fields;
      this.constructors := constructors;
      this.parameterCount := parameterCount;
    }
  }

  /** The annotation lists of a set of declarations, as one value. */
  type Heap = map<Decl, seq<Annotation>>

  ghost function Snap(u: set<Decl>): (h: Heap)
    reads u
    ensures h.Keys == u
  {
    map d | d in u :: d.annotations
  }

  /** The given classes with all their fields and constructors. */
  ghost function Universe(classes: set<Decl>): set<Decl> {
    classes
    + (set c, f | c in classes && f in c.fields.Values :: f)
    + (set c, k | c in classes && k in c.constructors :: k)
  }

  lemma FieldInUniverse(classes: set<Decl>, c: Decl, name: string)
    requires c in classes && name in c.fields
    ensures c.fields[name] in Universe(classes)
  {
    assert c.fields[name] in c.fields.Values;
  }

  lemma ConstructorInUniverse(classes: set<Decl>, c: Decl, i: nat)
    requires c in classes && i < |c.constructors|
    ensures c.constructors[i] in Universe(classes)
  {
    assert c.constructors[i] in c.constructors;
  }

  /** `u` holds `c`, its fields and its constructors: everything a converter may annotate for `c`. */
  ghost predicate Covers(u: set<Decl>, c: Decl) {
    c in u
    && (forall n :: n in c.fields ==> c.fields[n] in u)
    && (forall i :: 0 <= i < |c.constructors| ==> c.constructors[i] in u)
  }

  /** `Universe` covers each of the classes it is built from. */
  lemma UniverseCovers(classes: set<Decl>, c: Decl)
    requires c in classes
    ensures Covers(Universe(classes), c)
  {
    forall n | n in c.fields ensures c.fields[n] in Universe(classes) {
      FieldInUniverse(classes, c, n);
    }
    forall i | 0 <= i < |c.constructors| ensures c.constructors[i] in Universe(classes) {
      ConstructorInUniverse(classes, c, i);
    }
  }

  /** `JavaPsiFacade.findClass` over a class index; a missing name finds nothing. */
  function FindClass(index: map<string, Decl>, name: Option<string>): (r: Option<Decl>)
    ensures r.Some? <==> name.Some? && name.value in index
    ensures r.Some? ==> r.value == index[name.value] && r.value in index.Values
  {
    if name.Some? && name.value in index then Some(index[name.value]) else None
  }

  /** `PsiClass.findFieldByName(name, false)`; a missing name finds nothing. */
  function FindField(c: Decl, name: Option<string>): (r: Option<Decl>)
    ensures r.Some? <==> name.Some? && name.value in c.fields
    ensures r.Some? ==> r.value == c.fields[name.value]
  {
    if name.Some? && name.value in c.fields then Some(c.fields[name.value]) else None
  }
}
