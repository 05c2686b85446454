/**
 * What the mapping-file converter's add lists, and so its methods, do: a run
 * repeated with a name-recognising host changes nothing more, the two
 * composite-id strategies write disjoint kinds of annotation, the id-class
 * strategy marks every resolvable key field as an id, a tag naming no field
 * asks for nothing, and a range selection also reaches key classes nested
 * inside a composite id.
 */
module HibernateProperties {
  import opened Wrappers
  import opened Xml
  import opened Psi
  import opened AnnotationText
  import opened MergeGuard
  import opened HibernateText
  import opened HibernateAction
  import opened HibernateNames

  /** Running the converter a second time changes nothing when the host's annotations are recognised by the guard. */
  lemma ConvertIdempotent(env: Env, root: Option<Tag>, sel: Selection, h: Heap)
    requires Recognises(env.guard, env.create)
    ensures Apply(env.guard, env.create, Apply(env.guard, env.create, h, ConvertWrites(env, root, sel)), ConvertWrites(env, root, sel))
         == Apply(env.guard, env.create, h, ConvertWrites(env, root, sel))
  {
    ApplyIdempotent(env.guard, env.create, h, ConvertWrites(env, root, sel));
  }

  /**
   * With the corrected comparison, a host that resolves every written name
   * to one with the same simple name makes the converter idempotent.
   */
  lemma ConvertIdempotentBySimpleName(env: Env, root: Option<Tag>, sel: Selection, h: Heap)
    requires env.guard == BySimpleName && KeepsSimpleName(env.create)
    ensures Apply(env.guard, env.create, Apply(env.guard, env.create, h, ConvertWrites(env, root, sel)), ConvertWrites(env, root, sel))
         == Apply(env.guard, env.create, h, ConvertWrites(env, root, sel))
  {
    ResolvedNamesRecognisedBySimpleName(env.create);
    ConvertIdempotent(env, root, sel, h);
  }

  /** The converter never removes or reorders an annotation: every list only gains entries in front. */
  lemma ConvertOnlyPrepends(env: Env, root: Option<Tag>, sel: Selection, h: Heap, d: Decl) returns (front: seq<Annotation>)
    requires d in h
    ensures Apply(env.guard, env.create, h, ConvertWrites(env, root, sel))[d] == front + h[d]
    ensures |front| <= |ConvertWrites(env, root, sel)|
  {
    front := ApplyOnlyPrepends(env.guard, env.create, h, ConvertWrites(env, root, sel), d);
  }

  /** A field tag whose `name` is missing or names no field of the class asks for nothing; neither does an unknown tag. */
  lemma UnresolvedElementWritesNothing(env: Env, c: Decl, t: Tag)
    requires t.name !in {"id", "property", "many-to-one", "one-to-many", "many-to-many", "composite-id"}
          || (t.name != "composite-id" && FindField(c, Attr(t, "name")).None?)
    ensures ElementWrites(env, c, t) == []
  {
  }

  /** The embedded strategy asks for nothing, not even for its key class, when the composite id names no field. */
  lemma EmbeddedIdNeedsField(env: Env, c: Decl, t: Tag)
    requires IsEmbeddableStrategy(t) && FindField(c, Attr(t, "name")).None?
    ensures CompositeIdWrites(env, c, t) == []
  {
  }

  // The kinds of annotation a list of adds writes, read back as the guard reads them.

  predicate NamedIn(ws: seq<Write>, names: set<string>) {
    forall w :: w in ws ==> ExtractQualifiedName(w.text).Some? && ExtractQualifiedName(w.text).value in names
  }

  /** The kinds the embedded strategy writes. */
  const EmbeddedIdNames: set<string> := {"EmbeddedId", "Embeddable", "Column", "ManyToOne", "JoinColumn"}

  /** The kinds the id-class strategy writes. */
  const IdClassNames: set<string> := {"IdClass", "Id", "Column", "ManyToOne", "JoinColumn"}

  lemma NamedInAppend(a: seq<Write>, b: seq<Write>, names: set<string>)
    requires NamedIn(a, names) && NamedIn(b, names)
    ensures NamedIn(a + b, names)
  {
  }

  lemma NamedOne(d: Decl, text: string, names: set<string>)
    requires ExtractQualifiedName(text).Some? && ExtractQualifiedName(text).value in names
    ensures NamedIn(At(d, [text]), names)
  {
    assert [text][0] == text;
    NamedAt(d, [text], names);
  }

  lemma NamedAt(d: Decl, texts: seq<string>, names: set<string>)
    requires forall i :: 0 <= i < |texts| ==> ExtractQualifiedName(texts[i]).Some? && ExtractQualifiedName(texts[i]).value in names
    ensures NamedIn(At(d, texts), names)
  {
    forall w | w in At(d, texts)
      ensures ExtractQualifiedName(w.text).Some? && ExtractQualifiedName(w.text).value in names
    {
      var i :| 0 <= i < |texts| && At(d, texts)[i] == w;
    }
  }

  lemma NamedField(c: Decl, t: Tag, texts: seq<string>, names: set<string>)
    requires forall i :: 0 <= i < |texts| ==> ExtractQualifiedName(texts[i]).Some? && ExtractQualifiedName(texts[i]).value in names
    ensures NamedIn(FieldWrites(c, t, texts), names)
  {
    if FindField(c, Attr(t, "name")).Some? {
      NamedAt(c.fields[t.attrs["name"]], texts, names);
    }
  }

  /** The key many-to-one texts: `@ManyToOne` and perhaps a `@JoinColumn`. */
  lemma KeyManyToOneTextsNamed(k: Tag, names: set<string>)
    requires "ManyToOne" in names && "JoinColumn" in names
    ensures forall i :: 0 <= i < |KeyManyToOneTexts(k)| ==>
      ExtractQualifiedName(KeyManyToOneTexts(k)[i]).Some? && ExtractQualifiedName(KeyManyToOneTexts(k)[i]).value in names
  {
    var texts := KeyManyToOneTexts(k);
    var tail := KeyJoinColumnTexts(k);
    forall i | 0 <= i < |texts|
      ensures ExtractQualifiedName(texts[i]).Some? && ExtractQualifiedName(texts[i]).value in names
    {
      if i == 0 {
        ManyToOneName();
      } else {
        assert texts[i] == tail[i - 1];
        KeyJoinColumnNamed(k);
      }
    }
  }

  lemma KeyPropertyNamed(env: Env, e: Decl, k: Tag, names: set<string>)
    requires "Column" in names
    ensures NamedIn(KeyPropertyWrites(env, e, k), names)
  {
    var text := KeyPropertyText(k, env.nameFirst);
    ColumnBuiltName(KeyColumnPairs(k, env.nameFirst));
    assert [text][0] == text;
    NamedField(e, k, [text], names);
  }

  lemma {:induction false} KeyPropertiesNamed(env: Env, e: Decl, ks: seq<Tag>, names: set<string>)
    requires "Column" in names
    ensures NamedIn(KeyPropertiesWrites(env, e, ks), names)
    decreases |ks|
  {
    if ks != [] {
      var k := ks[|ks| - 1];
      KeyPropertiesNamed(env, e, ks[..|ks| - 1], names);
      KeyPropertyNamed(env, e, k, names);
      NamedInAppend(KeyPropertiesWrites(env, e, ks[..|ks| - 1]), KeyPropertyWrites(env, e, k), names);
    }
  }

  lemma KeyManyToOneNamed(e: Decl, k: Tag, names: set<string>)
    requires "ManyToOne" in names && "JoinColumn" in names
    ensures NamedIn(KeyManyToOneWrites(e, k), names)
  {
    KeyManyToOneTextsNamed(k, names);
    NamedField(e, k, KeyManyToOneTexts(k), names);
  }

  lemma {:induction false} KeyManyToOnesNamed(e: Decl, ks: seq<Tag>, names: set<string>)
    requires "ManyToOne" in names && "JoinColumn" in names
    ensures NamedIn(KeyManyToOnesWrites(e, ks), names)
    decreases |ks|
  {
    if ks != [] {
      var k := ks[|ks| - 1];
      KeyManyToOnesNamed(e, ks[..|ks| - 1], names);
      KeyManyToOneNamed(e, k, names);
      NamedInAppend(KeyManyToOnesWrites(e, ks[..|ks| - 1]), KeyManyToOneWrites(e, k), names);
    }
  }

  lemma IdClassPropertyNamed(c: Decl, k: Tag)
    ensures NamedIn(IdClassPropertyWrites(c, k), IdClassNames)
  {
    var texts := IdClassPropertyTexts(k);
    forall i | 0 <= i < |texts|
      ensures ExtractQualifiedName(texts[i]).Some? && ExtractQualifiedName(texts[i]).value in IdClassNames
    {
      if i == 0 {
        IdName();
      } else {
        IdClassColumnName(k);
      }
    }
    NamedField(c, k, texts, IdClassNames);
  }

  lemma {:induction false} IdClassPropertiesNamed(c: Decl, ks: seq<Tag>)
    ensures NamedIn(IdClassPropertiesWrites(c, ks), IdClassNames)
    decreases |ks|
  {
    if ks != [] {
      var k := ks[|ks| - 1];
      IdClassPropertiesNamed(c, ks[..|ks| - 1]);
      IdClassPropertyNamed(c, k);
      NamedInAppend(IdClassPropertiesWrites(c, ks[..|ks| - 1]), IdClassPropertyWrites(c, k), IdClassNames);
    }
  }

  lemma IdClassManyToOneNamed(c: Decl, k: Tag)
    ensures NamedIn(IdClassManyToOneWrites(c, k), IdClassNames)
  {
    var texts := IdClassManyToOneTexts(k);
    KeyManyToOneTextsNamed(k, IdClassNames);
    forall i | 0 <= i < |texts|
      ensures ExtractQualifiedName(texts[i]).Some? && ExtractQualifiedName(texts[i]).value in IdClassNames
    {
      if i == 0 {
        IdName();
      } else {
        assert texts[i] == KeyManyToOneTexts(k)[i - 1];
      }
    }
    NamedField(c, k, texts, IdClassNames);
  }

  lemma {:induction false} IdClassManyToOnesNamed(c: Decl, ks: seq<Tag>)
    ensures NamedIn(IdClassManyToOnesWrites(c, ks), IdClassNames)
    decreases |ks|
  {
    if ks != [] {
      var k := ks[|ks| - 1];
      IdClassManyToOnesNamed(c, ks[..|ks| - 1]);
      IdClassManyToOneNamed(c, k);
      NamedInAppend(IdClassManyToOnesWrites(c, ks[..|ks| - 1]), IdClassManyToOneWrites(c, k), IdClassNames);
    }
  }

  lemma EmbeddableAtNamed(e: Decl)
    ensures NamedIn(At(e, ["@Embeddable"]), EmbeddedIdNames)
  {
    EmbeddableName();
    NamedOne(e, "@Embeddable", EmbeddedIdNames);
  }

  lemma EmbeddableNamed(env: Env, e: Decl, ct: Tag)
    ensures NamedIn(EmbeddableWrites(env, e, ct), EmbeddedIdNames)
  {
    var head := At(e, ["@Embeddable"]);
    var props := KeyPropertiesWrites(env, e, SubTagsNamed(ct, "key-property"));
    var refs := KeyManyToOnesWrites(e, SubTagsNamed(ct, "key-many-to-one"));
    EmbeddableAtNamed(e);
    KeyPropertiesNamed(env, e, SubTagsNamed(ct, "key-property"), EmbeddedIdNames);
    KeyManyToOnesNamed(e, SubTagsNamed(ct, "key-many-to-one"), EmbeddedIdNames);
    NamedInAppend(head, props, EmbeddedIdNames);
    NamedInAppend(head + props, refs, EmbeddedIdNames);
    assert EmbeddableWrites(env, e, ct) == head + props + refs;
  }

  lemma EmbeddedIdAtNamed(f: Decl)
    ensures NamedIn(At(f, ["@EmbeddedId"]), EmbeddedIdNames)
  {
    EmbeddedIdName();
    NamedOne(f, "@EmbeddedId", EmbeddedIdNames);
  }

  lemma EmbeddedIdNamed(env: Env, c: Decl, t: Tag)
    ensures NamedIn(EmbeddedIdWrites(env, c, t), EmbeddedIdNames)
  {
    match FindField(c, Attr(t, "name"))
    case None =>
    case Some(f) =>
      EmbeddedIdAtNamed(f);
      match EmbeddedClass(env, t)
      case None =>
        assert EmbeddedIdWrites(env, c, t) == At(f, ["@EmbeddedId"]) + [];
      case Some(e) =>
        var key := EmbeddableWrites(env, e, FirstSubTag(t, "class").value);
        EmbeddableNamed(env, e, FirstSubTag(t, "class").value);
        NamedInAppend(At(f, ["@EmbeddedId"]), key, EmbeddedIdNames);
        assert EmbeddedIdWrites(env, c, t) == At(f, ["@EmbeddedId"]) + key;
  }

  lemma IdClassNamed(c: Decl, t: Tag)
    ensures NamedIn(IdClassWrites(c, t), IdClassNames)
  {
    if "class" in t.attrs {
      IdClassTextName(t.attrs["class"]);
    }
    NamedAt(c, IdClassTexts(t), IdClassNames);
    IdClassPropertiesNamed(c, SubTagsNamed(t, "key-property"));
    IdClassManyToOnesNamed(c, SubTagsNamed(t, "key-many-to-one"));
    NamedInAppend(At(c, IdClassTexts(t)), IdClassPropertiesWrites(c, SubTagsNamed(t, "key-property")), IdClassNames);
  }

  /**
   * The two composite-id strategies exclude each other: with a nested
   * `class` tag only embedded-key annotations are written (never `@IdClass`
   * or `@Id`), without one only id-class annotations (never `@EmbeddedId` or
   * `@Embeddable`).
   */
  lemma CompositeStrategiesExclusive(env: Env, c: Decl, t: Tag)
    ensures IsEmbeddableStrategy(t) ==> NamedIn(CompositeIdWrites(env, c, t), EmbeddedIdNames)
    ensures !IsEmbeddableStrategy(t) ==> NamedIn(CompositeIdWrites(env, c, t), IdClassNames)
  {
    if IsEmbeddableStrategy(t) {
      EmbeddedIdNamed(env, c, t);
    } else {
      IdClassNamed(c, t);
    }
  }

  // The id-class strategy and `@Id`.

  lemma {:induction false} IdClassPropertiesAskForId(c: Decl, ks: seq<Tag>, k: Tag)
    requires k in ks && FindField(c, Attr(k, "name")).Some?
    ensures Write(c.fields[k.attrs["name"]], "@Id") in IdClassPropertiesWrites(c, ks)
    decreases |ks|
  {
    var last := ks[|ks| - 1];
    if k == last {
      assert IdClassPropertyWrites(c, k)[0] == Write(c.fields[k.attrs["name"]], "@Id");
    } else {
      assert ks == ks[..|ks| - 1] + [last];
      IdClassPropertiesAskForId(c, ks[..|ks| - 1], k);
    }
  }

  lemma {:induction false} IdClassManyToOnesAskForId(c: Decl, ks: seq<Tag>, k: Tag)
    requires k in ks && FindField(c, Attr(k, "name")).Some?
    ensures Write(c.fields[k.attrs["name"]], "@Id") in IdClassManyToOnesWrites(c, ks)
    decreases |ks|
  {
    var last := ks[|ks| - 1];
    if k == last {
      assert IdClassManyToOneWrites(c, k)[0] == Write(c.fields[k.attrs["name"]], "@Id");
    } else {
      assert ks == ks[..|ks| - 1] + [last];
      IdClassManyToOnesAskForId(c, ks[..|ks| - 1], k);
    }
  }

  /** The id-class strategy asks for `@Id` on every key field that resolves in the owning class. */
  lemma IdClassAsksForId(c: Decl, t: Tag, k: Tag)
    requires k in t.children && (k.name == "key-property" || k.name == "key-many-to-one")
    requires "name" in k.attrs && k.attrs["name"] in c.fields
    ensures Write(c.fields[k.attrs["name"]], "@Id") in IdClassWrites(c, t)
  {
    if k.name == "key-property" {
      IdClassPropertiesAskForId(c, SubTagsNamed(t, "key-property"), k);
    } else {
      IdClassManyToOnesAskForId(c, SubTagsNamed(t, "key-many-to-one"), k);
    }
  }

  /**
   * With the id-class strategy, every `key-property` or `key-many-to-one`
   * whose name resolves to a field of the owning class leaves that field
   * with an id annotation: one already recognised as `Id`, or the one the
   * host created for `@Id` (the host must be able to create it).
   */
  lemma IdClassKeyFieldsGetId(env: Env, h: Heap, c: Decl, t: Tag, k: Tag)
    requires !IsEmbeddableStrategy(t)
    requires k in t.children && (k.name == "key-property" || k.name == "key-many-to-one")
    requires "name" in k.attrs && k.attrs["name"] in c.fields && c.fields[k.attrs["name"]] in h
    requires env.create("@Id").Some?
    ensures Marked(env.guard, Apply(env.guard, env.create, h, CompositeIdWrites(env, c, t))[c.fields[k.attrs["name"]]],
                   "Id", env.create("@Id").value)
  {
    var ws := CompositeIdWrites(env, c, t);
    assert ws == IdClassWrites(c, t);
    IdClassAsksForId(c, t, k);
    IdName();
    WriteKeepsMark(env.guard, env.create, h, ws, Write(c.fields[k.attrs["name"]], "@Id"), "Id");
  }

  // Range selections and nested `class` tags.

  lemma {:induction false} ClassesWritesAskForEntity(env: Env, ts: seq<Tag>, t: Tag)
    requires t in ts && "name" in t.attrs && t.attrs["name"] in env.project
    ensures Write(env.project[t.attrs["name"]], "@Entity") in ClassesWrites(env, ts)
    decreases |ts|
  {
    var last := ts[|ts| - 1];
    if t == last {
      assert ClassWrites(env, t)[0] == Write(env.project[t.attrs["name"]], "@Entity");
    } else {
      assert ts == ts[..|ts| - 1] + [last];
      ClassesWritesAskForEntity(env, ts[..|ts| - 1], t);
    }
  }

  /**
   * A range selection reads every `class` tag inside it at any depth, so the
   * key class nested in a class's `composite-id` is processed as a class of
   * its own: when it names a project class, that class is asked to become an
   * `@Entity`.
   */
  lemma NestedKeyClassMadeEntity(env: Env, root: Tag, k: Tag, ci: Tag, ct: Tag, start: int, end: int)
    requires root.name == "hibernate-mapping"
    requires k in root.children && k.name == "class"
    requires ci in k.children && ci.name == "composite-id"
    requires ct in ci.children && ct.name == "class" && Within(ct, start, end)
    requires "name" in ct.attrs && ct.attrs["name"] in env.project
    ensures Write(env.project[ct.attrs["name"]], "@Entity") in ConvertWrites(env, Some(root), Range(start, end))
  {
    var j :| 0 <= j < |ci.children| && ci.children[j] == ct;
    ChildIsDescendant(ci, j);
    DescendantOfChild(k, ci, ct);
    DescendantOfChild(root, k, ct);
    ClassesWritesAskForEntity(env, ClassTagsToProcess(root, Range(start, end)), ct);
  }
}
