/**
 * The mapping-file converter: which `class` tags it reads, which guarded
 * adds each tag asks for, and the methods that perform them on the
 * declarations in place. Every method is tied to a list of adds (`...Writes`)
 * computed from the tags and the class index alone; the lemmas at the end
 * state what those lists, and so the methods, do.
 */
module HibernateAction {
  import opened Wrappers
  import opened Seqs
  import opened Xml
  import opened Psi
  import opened AnnotationText
  import opened MergeGuard
  import opened HibernateText

  /**
   * What a run works against: the project's classes and all visible classes
   * by qualified name (`findClass` in project scope and in all scopes), the
   * host's annotation factory, the name comparison of the guard, and the
   * order in which a `HashMap` of `name` and `length` yields its entries.
   */
  datatype Env = Env(project: map<string, Decl>, all: map<string, Decl>, create: Creator, guard: Guard, nameFirst: bool)

  /** `u` covers every class the run can look up, with its fields and constructors. */
  ghost predicate CoversEnv(u: set<Decl>, env: Env) {
    (forall n :: n in env.project ==> Covers(u, env.project[n]))
    && (forall n :: n in env.all ==> Covers(u, env.all[n]))
  }

  /** `getClassTagsToProcess`: the `class` tags a run reads. */
  function ClassTagsToProcess(root: Tag, sel: Selection): (r: seq<Tag>)
    ensures sel.NoSelection? ==> forall t :: t in r <==> t in root.children && t.name == "class"
    ensures sel.Range? ==> forall t :: t in r <==> t in Descendants(root) && Within(t, sel.start, sel.end) && t.name == "class"
    ensures IsSubsequence(r, if sel.NoSelection? then root.children else Descendants(root))
  {
    match sel
    case NoSelection =>
      var p := (t: Tag) => t.name == "class";
      FilterIsSubsequence(root.children, p);
      Filter(root.children, p)
    case Range(start, end) =>
      var p := (t: Tag) => Within(t, start, end) && t.name == "class";
      FilterIsSubsequence(Descendants(root), p);
      Filter(Descendants(root), p)
  }

  /** The adds aimed at the field a tag names, or none when the tag names no field of `c`. */
  function FieldWrites(c: Decl, t: Tag, texts: seq<string>): (r: seq<Write>)
    ensures FindField(c, Attr(t, "name")).None? ==> r == []
    ensures FindField(c, Attr(t, "name")).Some? ==> r == At(c.fields[t.attrs["name"]], texts)
  {
    match FindField(c, Attr(t, "name"))
    case None => []
    case Some(f) => At(f, texts)
  }

  function ColumnWrites(f: Decl, t: Tag): seq<Write> {
    At(f, ColumnTexts(t))
  }

  function IdWrites(c: Decl, t: Tag): seq<Write> {
    FieldWrites(c, t, IdTexts(t))
  }

  function PropertyWrites(c: Decl, t: Tag): seq<Write> {
    FieldWrites(c, t, PropertyTexts(t))
  }

  function ManyToOneWrites(c: Decl, t: Tag): seq<Write> {
    FieldWrites(c, t, ManyToOneTexts(t))
  }

  function OneToManyWrites(c: Decl, t: Tag): seq<Write> {
    FieldWrites(c, t, [Render("OneToMany", RelationPairs(t))])
  }

  function ManyToManyWrites(c: Decl, t: Tag): seq<Write> {
    FieldWrites(c, t, ManyToManyTexts(t))
  }

  function KeyPropertyWrites(env: Env, e: Decl, k: Tag): seq<Write> {
    FieldWrites(e, k, [KeyPropertyText(k, env.nameFirst)])
  }

  function KeyPropertiesWrites(env: Env, e: Decl, ks: seq<Tag>): seq<Write>
    decreases |ks|
  {
    if ks == [] then [] else KeyPropertiesWrites(env, e, ks[..|ks| - 1]) + KeyPropertyWrites(env, e, ks[|ks| - 1])
  }

  function KeyManyToOneWrites(e: Decl, k: Tag): seq<Write> {
    FieldWrites(e, k, KeyManyToOneTexts(k))
  }

  function KeyManyToOnesWrites(e: Decl, ks: seq<Tag>): seq<Write>
    decreases |ks|
  {
    if ks == [] then [] else KeyManyToOnesWrites(e, ks[..|ks| - 1]) + KeyManyToOneWrites(e, ks[|ks| - 1])
  }

  /** The adds for an embedded key class: `@Embeddable`, then its key properties, then its key many-to-ones. */
  function EmbeddableWrites(env: Env, e: Decl, ct: Tag): seq<Write> {
    At(e, ["@Embeddable"])
    + KeyPropertiesWrites(env, e, SubTagsNamed(ct, "key-property"))
    + KeyManyToOnesWrites(e, SubTagsNamed(ct, "key-many-to-one"))
  }

  /** The key class a nested `class` tag names, looked up among all visible classes. */
  function EmbeddedClass(env: Env, t: Tag): (r: Option<Decl>)
    ensures r.Some? ==> r.value in env.all.Values
  {
    match FirstSubTag(t, "class")
    case None => None
    case Some(ct) => FindClass(env.all, Attr(ct, "name"))
  }

  function EmbeddedIdWrites(env: Env, c: Decl, t: Tag): seq<Write> {
    match FindField(c, Attr(t, "name"))
    case None => []
    case Some(f) =>
      At(f, ["@EmbeddedId"])
      + (match EmbeddedClass(env, t)
         case None => []
         case Some(e) => EmbeddableWrites(env, e, FirstSubTag(t, "class").value))
  }

  function IdClassPropertyWrites(c: Decl, k: Tag): seq<Write> {
    FieldWrites(c, k, IdClassPropertyTexts(k))
  }

  function IdClassPropertiesWrites(c: Decl, ks: seq<Tag>): seq<Write>
    decreases |ks|
  {
    if ks == [] then [] else IdClassPropertiesWrites(c, ks[..|ks| - 1]) + IdClassPropertyWrites(c, ks[|ks| - 1])
  }

  function IdClassManyToOneWrites(c: Decl, k: Tag): seq<Write> {
    FieldWrites(c, k, IdClassManyToOneTexts(k))
  }

  function IdClassManyToOnesWrites(c: Decl, ks: seq<Tag>): seq<Write>
    decreases |ks|
  {
    if ks == [] then [] else IdClassManyToOnesWrites(c, ks[..|ks| - 1]) + IdClassManyToOneWrites(c, ks[|ks| - 1])
  }

  /** The adds of the id-class strategy: `@IdClass` on the owning class when named, then the key fields. */
  function IdClassWrites(c: Decl, t: Tag): seq<Write> {
    At(c, IdClassTexts(t))
    + IdClassPropertiesWrites(c, SubTagsNamed(t, "key-property"))
    + IdClassManyToOnesWrites(c, SubTagsNamed(t, "key-many-to-one"))
  }

  function CompositeIdWrites(env: Env, c: Decl, t: Tag): seq<Write> {
    if IsEmbeddableStrategy(t) then EmbeddedIdWrites(env, c, t) else IdClassWrites(c, t)
  }

  /** The adds of one sub-tag of a class tag: one resolver per tag name, nothing for any other tag. */
  function ElementWrites(env: Env, c: Decl, t: Tag): seq<Write> {
    match t.name
    case "id" => IdWrites(c, t)
    case "property" => PropertyWrites(c, t)
    case "many-to-one" => ManyToOneWrites(c, t)
    case "one-to-many" => OneToManyWrites(c, t)
    case "many-to-many" => ManyToManyWrites(c, t)
    case "composite-id" => CompositeIdWrites(env, c, t)
    case _ => []
  }

  function ElementsWrites(env: Env, c: Decl, ts: seq<Tag>): seq<Write>
    decreases |ts|
  {
    if ts == [] then [] else ElementsWrites(env, c, ts[..|ts| - 1]) + ElementWrites(env, c, ts[|ts| - 1])
  }

  /** The adds of one class tag: nothing unless it names a project class. */
  function ClassWrites(env: Env, t: Tag): seq<Write> {
    match FindClass(env.project, Attr(t, "name"))
    case None => []
    case Some(c) => At(c, EntityTexts(t)) + ElementsWrites(env, c, t.children)
  }

  function ClassesWrites(env: Env, ts: seq<Tag>): seq<Write>
    decreases |ts|
  {
    if ts == [] then [] else ClassesWrites(env, ts[..|ts| - 1]) + ClassWrites(env, ts[|ts| - 1])
  }

  /** A run on a file: nothing unless its root tag is `hibernate-mapping`. */
  function ConvertWrites(env: Env, root: Option<Tag>, sel: Selection): seq<Write> {
    if root.None? || root.value.name != "hibernate-mapping" then []
    else ClassesWrites(env, ClassTagsToProcess(root.value, sel))
  }

  /*
   * The methods. Each one changes the annotation lists of the declarations
   * in the ghost set `u` and no others, and leaves them as the guarded adds
   * of its `...Writes` list, applied in order, would.
   */

  /** `processColumnDetails`. */
  method ProcessColumnDetails(env: Env, f: Decl, t: Tag, ghost u: set<Decl>)
    requires f in u
    modifies u
    ensures Snap(u) == Apply(env.guard, env.create, old(Snap(u)), ColumnWrites(f, t))
  {
    match ColumnPairs(t)
    case None =>
      assert At(f, []) == [];
    case Some(ps) =>
      AddAnnotationIfNotPresent(env.guard, env.create, f, Render("Column", ps), u);
  }

  /** `addColumnAnnotation` (never called by the converter). */
  method AddColumnAnnotation(env: Env, f: Decl, t: Tag, ghost u: set<Decl>)
    requires f in u
    modifies u
    ensures Snap(u) == Apply(env.guard, env.create, old(Snap(u)), At(f, StandaloneColumnTexts(t)))
  {
    var ps := Pairs(ColumnKeys, ColumnValues(t));
    if ps != [] {
      AddAnnotationIfNotPresent(env.guard, env.create, f, Render("Column", ps), u);
    } else {
      assert At(f, []) == [];
    }
  }

  /** `addEntityAnnotations`. */
  method AddEntityAnnotations(env: Env, c: Decl, t: Tag, ghost u: set<Decl>)
    requires Covers(u, c)
    modifies u
    ensures Snap(u) == Apply(env.guard, env.create, old(Snap(u)), At(c, EntityTexts(t)))
  {
    ghost var h0 := Snap(u);
    AddAnnotationIfNotPresent(env.guard, env.create, c, "@Entity", u);
    var table := TablePairs(t);
    if table.Some? {
      AddAnnotationIfNotPresent(env.guard, env.create, c, Render("Table", table.value), u);
    } else {
      assert At(c, []) == [];
    }
    ApplyAtAppend(env.guard, env.create, h0, c, ["@Entity"], TableTexts(t));
  }

  /** `processId`. */
  method ProcessId(env: Env, c: Decl, t: Tag, ghost u: set<Decl>)
    requires Covers(u, c)
    modifies u
    ensures Snap(u) == Apply(env.guard, env.create, old(Snap(u)), IdWrites(c, t))
  {
    var name := Attr(t, "name");
    if name.None? || name.value !in c.fields {
      return;
    }
    var f := c.fields[name.value];
    ghost var h0 := Snap(u);
    AddAnnotationIfNotPresent(env.guard, env.create, f, "@Id", u);
    var generator := Attr(t, "generator-class");
    if generator.Some? {
      AddAnnotationIfNotPresent(env.guard, env.create, f, GeneratedValueText(generator.value), u);
    } else {
      assert At(f, []) == [];
    }
    ApplyAtAppend(env.guard, env.create, h0, f, ["@Id"], GeneratorTexts(t));
    ProcessColumnDetails(env, f, t, u);
    ApplyAtAppend(env.guard, env.create, h0, f, ["@Id"] + GeneratorTexts(t), ColumnTexts(t));
  }

  /** `processProperty`. */
  method ProcessProperty(env: Env, c: Decl, t: Tag, ghost u: set<Decl>)
    requires Covers(u, c)
    modifies u
    ensures Snap(u) == Apply(env.guard, env.create, old(Snap(u)), PropertyWrites(c, t))
  {
    var name := Attr(t, "name");
    if name.None? || name.value !in c.fields {
      return;
    }
    var f := c.fields[name.value];
    ghost var h0 := Snap(u);
    ProcessColumnDetails(env, f, t, u);
    var ty := Attr(t, "type");
    if ty.Some? && Strings.Contains(ty.value, "timestamp") {
      AddAnnotationIfNotPresent(env.guard, env.create, f, TemporalText, u);
    } else {
      assert At(f, []) == [];
    }
    ApplyAtAppend(env.guard, env.create, h0, f, ColumnTexts(t), TemporalTexts(t));
  }

  /** `processManyToOne`. */
  method ProcessManyToOne(env: Env, c: Decl, t: Tag, ghost u: set<Decl>)
    requires Covers(u, c)
    modifies u
    ensures Snap(u) == Apply(env.guard, env.create, old(Snap(u)), ManyToOneWrites(c, t))
  {
    var name := Attr(t, "name");
    if name.None? || name.value !in c.fields {
      return;
    }
    var f := c.fields[name.value];
    ghost var h0 := Snap(u);
    var relation := Render("ManyToOne", ManyToOnePairs(t));
    AddAnnotationIfNotPresent(env.guard, env.create, f, relation, u);
    var column := Attr(t, "column");
    if column.Some? {
      AddAnnotationIfNotPresent(env.guard, env.create, f, Render("JoinColumn", [("name", Strings.Quoted(column.value))]), u);
    } else {
      assert At(f, []) == [];
    }
    ApplyAtAppend(env.guard, env.create, h0, f, [relation], JoinColumnTexts(t));
  }

  /** `processOneToMany`. */
  method ProcessOneToMany(env: Env, c: Decl, t: Tag, ghost u: set<Decl>)
    requires Covers(u, c)
    modifies u
    ensures Snap(u) == Apply(env.guard, env.create, old(Snap(u)), OneToManyWrites(c, t))
  {
    var name := Attr(t, "name");
    if name.None? || name.value !in c.fields {
      return;
    }
    AddAnnotationIfNotPresent(env.guard, env.create, c.fields[name.value], Render("OneToMany", RelationPairs(t)), u);
  }

  /** `processManyToMany`. */
  method ProcessManyToMany(env: Env, c: Decl, t: Tag, ghost u: set<Decl>)
    requires Covers(u, c)
    modifies u
    ensures Snap(u) == Apply(env.guard, env.create, old(Snap(u)), ManyToManyWrites(c, t))
  {
    var name := Attr(t, "name");
    if name.None? || name.value !in c.fields {
      return;
    }
    var f := c.fields[name.value];
    ghost var h0 := Snap(u);
    var relation := Render("ManyToMany", RelationPairs(t));
    AddAnnotationIfNotPresent(env.guard, env.create, f, relation, u);
    var joinTable := FirstSubTag(t, "join-table");
    if joinTable.Some? {
      ProcessJoinTable(env, f, joinTable.value, u);
    } else {
      assert At(f, []) == [];
    }
    ApplyAtAppend(env.guard, env.create, h0, f, [relation], JoinTableTexts(t));
  }

  /** `processJoinTable`, with `processJoinColumns` and `createJoinColumnString` folded into its text. */
  method ProcessJoinTable(env: Env, f: Decl, jt: Tag, ghost u: set<Decl>)
    requires f in u
    modifies u
    ensures Snap(u) == Apply(env.guard, env.create, old(Snap(u)), At(f, [JoinTableText(jt)]))
  {
    AddAnnotationIfNotPresent(env.guard, env.create, f, JoinTableText(jt), u);
  }

  /** `processKeyProperty`. */
  method ProcessKeyProperty(env: Env, e: Decl, k: Tag, ghost u: set<Decl>)
    requires Covers(u, e)
    modifies u
    ensures Snap(u) == Apply(env.guard, env.create, old(Snap(u)), KeyPropertyWrites(env, e, k))
  {
    var name := Attr(k, "name");
    if name.None? || name.value !in e.fields {
      return;
    }
    AddAnnotationIfNotPresent(env.guard, env.create, e.fields[name.value], KeyPropertyText(k, env.nameFirst), u);
  }

  /** `processKeyManyToOne`. */
  method ProcessKeyManyToOne(env: Env, e: Decl, k: Tag, ghost u: set<Decl>)
    requires Covers(u, e)
    modifies u
    ensures Snap(u) == Apply(env.guard, env.create, old(Snap(u)), KeyManyToOneWrites(e, k))
  {
    var name := Attr(k, "name");
    if name.None? || name.value !in e.fields {
      return;
    }
    var f := e.fields[name.value];
    ghost var h0 := Snap(u);
    AddAnnotationIfNotPresent(env.guard, env.create, f, "@ManyToOne", u);
    var column := Attr(k, "column");
    if column.Some? {
      AddAnnotationIfNotPresent(env.guard, env.create, f, BuildAnnotationText("JoinColumn", [("name", Strings.Quoted(column.value))]), u);
    } else {
      assert At(f, []) == [];
    }
    ApplyAtAppend(env.guard, env.create, h0, f, ["@ManyToOne"], KeyJoinColumnTexts(k));
  }

  /** `processEmbeddableClass`: `@Embeddable`, then each key property, then each key many-to-one. */
  method ProcessEmbeddableClass(env: Env, e: Decl, ct: Tag, ghost u: set<Decl>)
    requires Covers(u, e)
    modifies u
    ensures Snap(u) == Apply(env.guard, env.create, old(Snap(u)), EmbeddableWrites(env, e, ct))
  {
    ghost var h0 := Snap(u);
    AddAnnotationIfNotPresent(env.guard, env.create, e, "@Embeddable", u);
    var keyProperties := SubTagsNamed(ct, "key-property");
    ProcessKeyProperties(env, e, keyProperties, u);
    ApplyAppend(env.guard, env.create, h0, At(e, ["@Embeddable"]), KeyPropertiesWrites(env, e, keyProperties));
    var keyManyToOnes := SubTagsNamed(ct, "key-many-to-one");
    ProcessKeyManyToOnes(env, e, keyManyToOnes, u);
    ApplyAppend(env.guard, env.create, h0, At(e, ["@Embeddable"]) + KeyPropertiesWrites(env, e, keyProperties), KeyManyToOnesWrites(e, keyManyToOnes));
  }

  /** The `forEach` over the key properties of an embedded key class. */
  method ProcessKeyProperties(env: Env, e: Decl, ks: seq<Tag>, ghost u: set<Decl>)
    requires Covers(u, e)
    modifies u
    ensures Snap(u) == Apply(env.guard, env.create, old(Snap(u)), KeyPropertiesWrites(env, e, ks))
  {
    for i := 0 to |ks|
      invariant Snap(u) == Apply(env.guard, env.create, old(Snap(u)), KeyPropertiesWrites(env, e, ks[..i]))
    {
      ProcessKeyProperty(env, e, ks[i], u);
      ApplyKeyPropertiesNext(env, e, old(Snap(u)), ks, i);
    }
    assert ks[..|ks|] == ks;
  }

  /** One more tag is one more run of its adds. */
  lemma ApplyKeyPropertiesNext(env: Env, e: Decl, h: Heap, ks: seq<Tag>, i: nat)
    requires i < |ks|
    ensures Apply(env.guard, env.create, h, KeyPropertiesWrites(env, e, ks[..i + 1]))
      == Apply(env.guard, env.create, Apply(env.guard, env.create, h, KeyPropertiesWrites(env, e, ks[..i])), KeyPropertyWrites(env, e, ks[i]))
  {
    assert ks[..i + 1][..i] == ks[..i];
    ApplyAppend(env.guard, env.create, h, KeyPropertiesWrites(env, e, ks[..i]), KeyPropertyWrites(env, e, ks[i]));
  }

  /** The `forEach` over the key many-to-ones of an embedded key class. */
  method ProcessKeyManyToOnes(env: Env, e: Decl, ks: seq<Tag>, ghost u: set<Decl>)
    requires Covers(u, e)
    modifies u
    ensures Snap(u) == Apply(env.guard, env.create, old(Snap(u)), KeyManyToOnesWrites(e, ks))
  {
    for i := 0 to |ks|
      invariant Snap(u) == Apply(env.guard, env.create, old(Snap(u)), KeyManyToOnesWrites(e, ks[..i]))
    {
      ProcessKeyManyToOne(env, e, ks[i], u);
      ApplyKeyManyToOnesNext(env.guard, env.create, e, old(Snap(u)), ks, i);
    }
    assert ks[..|ks|] == ks;
  }

  /** One more tag is one more run of its adds. */
  lemma ApplyKeyManyToOnesNext(g: Guard, create: Creator, e: Decl, h: Heap, ks: seq<Tag>, i: nat)
    requires i < |ks|
    ensures Apply(g, create, h, KeyManyToOnesWrites(e, ks[..i + 1]))
      == Apply(g, create, Apply(g, create, h, KeyManyToOnesWrites(e, ks[..i])), KeyManyToOneWrites(e, ks[i]))
  {
    assert ks[..i + 1][..i] == ks[..i];
    ApplyAppend(g, create, h, KeyManyToOnesWrites(e, ks[..i]), KeyManyToOneWrites(e, ks[i]));
  }

  /** `processEmbeddedIdStrategy`: `@EmbeddedId` on the id field, then the key class when it is found. */
  method ProcessEmbeddedIdStrategy(env: Env, c: Decl, t: Tag, ghost u: set<Decl>)
    requires Covers(u, c) && CoversEnv(u, env)
    modifies u
    ensures Snap(u) == Apply(env.guard, env.create, old(Snap(u)), EmbeddedIdWrites(env, c, t))
  {
    var name := Attr(t, "name");
    if name.None? || name.value !in c.fields {
      return;
    }
    var f := c.fields[name.value];
    ghost var h0 := Snap(u);
    AddAnnotationIfNotPresent(env.guard, env.create, f, "@EmbeddedId", u);
    var classTag := FirstSubTag(t, "class");
    if classTag.Some? {
      var embedded := FindClass(env.all, Attr(classTag.value, "name"));
      if embedded.Some? {
        ProcessEmbeddableClass(env, embedded.value, classTag.value, u);
        ApplyAppend(env.guard, env.create, h0, At(f, ["@EmbeddedId"]), EmbeddableWrites(env, embedded.value, classTag.value));
        return;
      }
    }
    assert At(f, ["@EmbeddedId"]) + [] == At(f, ["@EmbeddedId"]);
  }

  /** `processIdClassProperty`. */
  method ProcessIdClassProperty(env: Env, c: Decl, k: Tag, ghost u: set<Decl>)
    requires Covers(u, c)
    modifies u
    ensures Snap(u) == Apply(env.guard, env.create, old(Snap(u)), IdClassPropertyWrites(c, k))
  {
    var name := Attr(k, "name");
    if name.None? || name.value !in c.fields {
      return;
    }
    var f := c.fields[name.value];
    ghost var h0 := Snap(u);
    AddAnnotationIfNotPresent(env.guard, env.create, f, "@Id", u);
    AddAnnotationIfNotPresent(env.guard, env.create, f, IdClassColumnText(k), u);
    ApplyAtAppend(env.guard, env.create, h0, f, ["@Id"], [IdClassColumnText(k)]);
  }

  /** `processIdClassManyToOne`. */
  method ProcessIdClassManyToOne(env: Env, c: Decl, k: Tag, ghost u: set<Decl>)
    requires Covers(u, c)
    modifies u
    ensures Snap(u) == Apply(env.guard, env.create, old(Snap(u)), IdClassManyToOneWrites(c, k))
  {
    var name := Attr(k, "name");
    if name.None? || name.value !in c.fields {
      return;
    }
    var f := c.fields[name.value];
    ghost var h0 := Snap(u);
    AddAnnotationIfNotPresent(env.guard, env.create, f, "@Id", u);
    ghost var h1 := Snap(u);
    AddAnnotationIfNotPresent(env.guard, env.create, f, "@ManyToOne", u);
    var column := Attr(k, "column");
    if column.Some? {
      AddAnnotationIfNotPresent(env.guard, env.create, f, BuildAnnotationText("JoinColumn", [("name", Strings.Quoted(column.value))]), u);
    } else {
      assert At(f, []) == [];
    }
    ApplyAtAppend(env.guard, env.create, h1, f, ["@ManyToOne"], KeyJoinColumnTexts(k));
    ApplyAtAppend(env.guard, env.create, h0, f, ["@Id"], KeyManyToOneTexts(k));
  }

  /** `processIdClassStrategy`: `@IdClass` on the owning class, then each key property, then each key many-to-one. */
  method ProcessIdClassStrategy(env: Env, c: Decl, t: Tag, ghost u: set<Decl>)
    requires Covers(u, c)
    modifies u
    ensures Snap(u) == Apply(env.guard, env.create, old(Snap(u)), IdClassWrites(c, t))
  {
    ghost var h0 := Snap(u);
    var idClass := Attr(t, "class");
    if idClass.Some? {
      AddAnnotationIfNotPresent(env.guard, env.create, c, IdClassText(idClass.value), u);
    } else {
      assert At(c, []) == [];
    }
    var keyProperties := SubTagsNamed(t, "key-property");
    ProcessIdClassProperties(env, c, keyProperties, u);
    ApplyAppend(env.guard, env.create, h0, At(c, IdClassTexts(t)), IdClassPropertiesWrites(c, keyProperties));
    var keyManyToOnes := SubTagsNamed(t, "key-many-to-one");
    ProcessIdClassManyToOnes(env, c, keyManyToOnes, u);
    ApplyAppend(env.guard, env.create, h0, At(c, IdClassTexts(t)) + IdClassPropertiesWrites(c, keyProperties), IdClassManyToOnesWrites(c, keyManyToOnes));
  }

  /** The `forEach` over the key properties of an id-class composite id. */
  method ProcessIdClassProperties(env: Env, c: Decl, ks: seq<Tag>, ghost u: set<Decl>)
    requires Covers(u, c)
    modifies u
    ensures Snap(u) == Apply(env.guard, env.create, old(Snap(u)), IdClassPropertiesWrites(c, ks))
  {
    for i := 0 to |ks|
      invariant Snap(u) == Apply(env.guard, env.create, old(Snap(u)), IdClassPropertiesWrites(c, ks[..i]))
    {
      ProcessIdClassProperty(env, c, ks[i], u);
      ApplyIdClassPropertiesNext(env.guard, env.create, c, old(Snap(u)), ks, i);
    }
    assert ks[..|ks|] == ks;
  }

  /** One more tag is one more run of its adds. */
  lemma ApplyIdClassPropertiesNext(g: Guard, create: Creator, c: Decl, h: Heap, ks: seq<Tag>, i: nat)
    requires i < |ks|
    ensures Apply(g, create, h, IdClassPropertiesWrites(c, ks[..i + 1]))
      == Apply(g, create, Apply(g, create, h, IdClassPropertiesWrites(c, ks[..i])), IdClassPropertyWrites(c, ks[i]))
  {
    assert ks[..i + 1][..i] == ks[..i];
    ApplyAppend(g, create, h, IdClassPropertiesWrites(c, ks[..i]), IdClassPropertyWrites(c, ks[i]));
  }

  /** The `forEach` over the key many-to-ones of an id-class composite id. */
  method ProcessIdClassManyToOnes(env: Env, c: Decl, ks: seq<Tag>, ghost u: set<Decl>)
    requires Covers(u, c)
    modifies u
    ensures Snap(u) == Apply(env.guard, env.create, old(Snap(u)), IdClassManyToOnesWrites(c, ks))
  {
    for i := 0 to |ks|
      invariant Snap(u) == Apply(env.guard, env.create, old(Snap(u)), IdClassManyToOnesWrites(c, ks[..i]))
    {
      ProcessIdClassManyToOne(env, c, ks[i], u);
      ApplyIdClassManyToOnesNext(env.guard, env.create, c, old(Snap(u)), ks, i);
    }
    assert ks[..|ks|] == ks;
  }

  /** One more tag is one more run of its adds. */
  lemma ApplyIdClassManyToOnesNext(g: Guard, create: Creator, c: Decl, h: Heap, ks: seq<Tag>, i: nat)
    requires i < |ks|
    ensures Apply(g, create, h, IdClassManyToOnesWrites(c, ks[..i + 1]))
      == Apply(g, create, Apply(g, create, h, IdClassManyToOnesWrites(c, ks[..i])), IdClassManyToOneWrites(c, ks[i]))
  {
    assert ks[..i + 1][..i] == ks[..i];
    ApplyAppend(g, create, h, IdClassManyToOnesWrites(c, ks[..i]), IdClassManyToOneWrites(c, ks[i]));
  }

  /** `processCompositeId`: one of the two strategies, chosen by `isEmbeddableStrategy`. */
  method ProcessCompositeId(env: Env, c: Decl, t: Tag, ghost u: set<Decl>)
    requires Covers(u, c) && CoversEnv(u, env)
    modifies u
    ensures Snap(u) == Apply(env.guard, env.create, old(Snap(u)), CompositeIdWrites(env, c, t))
  {
    if IsEmbeddableStrategy(t) {
      ProcessEmbeddedIdStrategy(env, c, t, u);
    } else {
      ProcessIdClassStrategy(env, c, t, u);
    }
  }

  /** The switch in `processClassElements`: the resolver for the tag's name, if any. */
  method ProcessElement(env: Env, c: Decl, tag: Tag, ghost u: set<Decl>)
    requires Covers(u, c) && CoversEnv(u, env)
    modifies u
    ensures Snap(u) == Apply(env.guard, env.create, old(Snap(u)), ElementWrites(env, c, tag))
  {
    match tag.name {
      case "id" => ProcessId(env, c, tag, u);
      case "property" => ProcessProperty(env, c, tag, u);
      case "many-to-one" => ProcessManyToOne(env, c, tag, u);
      case "one-to-many" => ProcessOneToMany(env, c, tag, u);
      case "many-to-many" => ProcessManyToMany(env, c, tag, u);
      case "composite-id" => ProcessCompositeId(env, c, tag, u);
      case _ =>
    }
  }

  /** `processClassElements`: each sub-tag of the class tag in order. */
  method ProcessClassElements(env: Env, c: Decl, t: Tag, ghost u: set<Decl>)
    requires Covers(u, c) && CoversEnv(u, env)
    modifies u
    ensures Snap(u) == Apply(env.guard, env.create, old(Snap(u)), ElementsWrites(env, c, t.children))
  {
    var tags := t.children;
    for i := 0 to |tags|
      invariant Snap(u) == Apply(env.guard, env.create, old(Snap(u)), ElementsWrites(env, c, tags[..i]))
    {
      ProcessElement(env, c, tags[i], u);
      ApplyElementsNext(env, c, old(Snap(u)), tags, i);
    }
    assert tags[..|tags|] == tags;
  }

  /** One more element tag is one more run of its adds. */
  lemma ApplyElementsNext(env: Env, c: Decl, h: Heap, tags: seq<Tag>, i: nat)
    requires i < |tags|
    ensures Apply(env.guard, env.create, h, ElementsWrites(env, c, tags[..i + 1]))
      == Apply(env.guard, env.create, Apply(env.guard, env.create, h, ElementsWrites(env, c, tags[..i])), ElementWrites(env, c, tags[i]))
  {
    assert tags[..i + 1][..i] == tags[..i];
    ApplyAppend(env.guard, env.create, h, ElementsWrites(env, c, tags[..i]), ElementWrites(env, c, tags[i]));
  }

  /** `processHibernateClass`: nothing unless the tag names a project class; then its entity annotations and its elements. */
  method ProcessHibernateClass(env: Env, t: Tag, ghost u: set<Decl>)
    requires CoversEnv(u, env)
    modifies u
    ensures Snap(u) == Apply(env.guard, env.create, old(Snap(u)), ClassWrites(env, t))
  {
    var cls := FindClass(env.project, Attr(t, "name"));
    if cls.None? {
      return;
    }
    var c := cls.value;
    ghost var h0 := Snap(u);
    AddEntityAnnotations(env, c, t, u);
    ProcessClassElements(env, c, t, u);
    ApplyAppend(env.guard, env.create, h0, At(c, EntityTexts(t)), ElementsWrites(env, c, t.children));
  }

  /** `processHibernateClasses`: each selected class tag in order. */
  method ProcessHibernateClasses(env: Env, tags: seq<Tag>, ghost u: set<Decl>)
    requires CoversEnv(u, env)
    modifies u
    ensures Snap(u) == Apply(env.guard, env.create, old(Snap(u)), ClassesWrites(env, tags))
  {
    for i := 0 to |tags|
      invariant Snap(u) == Apply(env.guard, env.create, old(Snap(u)), ClassesWrites(env, tags[..i]))
    {
      ProcessHibernateClass(env, tags[i], u);
      ApplyClassesNext(env, old(Snap(u)), tags, i);
    }
    assert tags[..|tags|] == tags;
  }

  /** One more tag is one more run of its adds. */
  lemma ApplyClassesNext(env: Env, h: Heap, tags: seq<Tag>, i: nat)
    requires i < |tags|
    ensures Apply(env.guard, env.create, h, ClassesWrites(env, tags[..i + 1]))
      == Apply(env.guard, env.create, Apply(env.guard, env.create, h, ClassesWrites(env, tags[..i])), ClassWrites(env, tags[i]))
  {
    assert tags[..i + 1][..i] == tags[..i];
    ApplyAppend(env.guard, env.create, h, ClassesWrites(env, tags[..i]), ClassWrites(env, tags[i]));
  }

  /**
   * The action on a file whose root tag is `root` (nothing when the file has
   * none): nothing unless the root is `hibernate-mapping`; otherwise every
   * selected class tag.
   */
  method ConvertHibernate(env: Env, root: Option<Tag>, sel: Selection, ghost u: set<Decl>)
    requires CoversEnv(u, env)
    modifies u
    ensures Snap(u) == Apply(env.guard, env.create, old(Snap(u)), ConvertWrites(env, root, sel))
  {
    if root.None? || root.value.name != "hibernate-mapping" {
      return;
    }
    var classes := ClassTagsToProcess(root.value, sel);
    ProcessHibernateClasses(env, classes, u);
  }
}
