/**
 * What the merge guard reads back from each text the mapping-file converter
 * writes: for every kind of tag, the sequence of annotation names its texts
 * carry, in order, and for the texts the source writes with `String.format`,
 * the literal text itself. The guard keys on these names, so they are what a
 * second run compares against.
 */
module HibernateNames {
  import opened Wrappers
  import opened Strings
  import opened Xml
  import opened AnnotationText
  import opened MergeGuard
  import opened HibernateText

  /** The name the guard reads from each text, in order. */
  function Names(texts: seq<string>): (r: seq<Option<string>>)
    ensures |r| == |texts|
    ensures forall i :: 0 <= i < |texts| ==> r[i] == ExtractQualifiedName(texts[i])
  {
    seq(|texts|, i requires 0 <= i < |texts| => ExtractQualifiedName(texts[i]))
  }

  lemma NamesAppend(a: seq<string>, b: seq<string>)
    ensures Names(a + b) == Names(a) + Names(b)
  {
    assert forall i :: 0 <= i < |b| ==> (a + b)[|a| + i] == b[i];
  }

  lemma NameOf(text: string, q: string)
    requires ExtractQualifiedName(text) == Some(q)
    ensures Names([text]) == [Some(q)]
  {
  }

  lemma NamesCons(text: string, q: string, rest: seq<string>, qs: seq<Option<string>>)
    requires ExtractQualifiedName(text) == Some(q) && Names(rest) == qs
    ensures Names([text] + rest) == [Some(q)] + qs
  {
    NameOf(text, q);
    NamesAppend([text], rest);
  }

  lemma NamesCons2(text: string, q: string, a: seq<string>, b: seq<string>)
    requires ExtractQualifiedName(text) == Some(q)
    ensures Names([text] + a + b) == [Some(q)] + Names(a) + Names(b)
  {
    NamesAppend(a, b);
    NamesCons(text, q, a + b, Names(a) + Names(b));
    assert [text] + a + b == [text] + (a + b);
  }

  // The names the guard reads from the bare texts.

  lemma IdName()
    ensures ExtractQualifiedName("@Id") == Some("Id")
  {
    ExtractBuilt("Id", []);
  }

  lemma ManyToOneName()
    ensures ExtractQualifiedName("@ManyToOne") == Some("ManyToOne")
  {
    ExtractBuilt("ManyToOne", []);
  }

  lemma EmbeddableName()
    ensures ExtractQualifiedName("@Embeddable") == Some("Embeddable")
  {
    ExtractBuilt("Embeddable", []);
  }

  lemma EmbeddedIdName()
    ensures ExtractQualifiedName("@EmbeddedId") == Some("EmbeddedId")
  {
    ExtractBuilt("EmbeddedId", []);
  }

  /** `@IdClass(X.class)` is read as `IdClass`, whatever `X` is. */
  lemma IdClassTextName(x: string)
    ensures ExtractQualifiedName(IdClassText(x)) == Some("IdClass")
  {
    ExtractBeforeParen("IdClass", x + ".class)");
  }

  /** The column of an id-class key property is read as `Column`, with or without its name. */
  lemma ColumnBuiltName(ps: seq<Pair>)
    ensures ExtractQualifiedName(BuildAnnotationText("Column", ps)) == Some("Column")
  {
    ExtractBuilt("Column", ps);
  }

  lemma IdClassColumnName(k: Tag)
    ensures ExtractQualifiedName(IdClassColumnText(k)) == Some("Column")
  {
    ColumnBuiltName(Pairs(["name"], [QuotedAttr(k, "column")]));
  }

  /** What the join column of a key many-to-one is read as. */
  lemma KeyJoinColumnNamed(k: Tag)
    ensures forall i :: 0 <= i < |KeyJoinColumnTexts(k)| ==> ExtractQualifiedName(KeyJoinColumnTexts(k)[i]) == Some("JoinColumn")
  {
    if "column" in k.attrs {
      ExtractBuilt("JoinColumn", [("name", Strings.Quoted(k.attrs["column"]))]);
    }
  }

  lemma TemporalName()
    ensures ExtractQualifiedName(TemporalText) == Some("Temporal")
  {
    assert "@" + "Temporal" + "(" == "@Temporal(";
    assert "@Temporal(" + "TemporalType.TIMESTAMP)" == TemporalText;
    ExtractBeforeParen("Temporal", "TemporalType.TIMESTAMP)");
  }

  /** `@Column(...)` when the tag names a column. */
  lemma ColumnTextsNames(t: Tag)
    ensures Names(ColumnTexts(t)) == if "column" in t.attrs then [Some("Column")] else []
  {
    if "column" in t.attrs {
      ExtractRendered("Column", ColumnPairs(t).value);
    }
  }

  /** `@GeneratedValue(...)` when the id tag names a generator class. */
  lemma GeneratorTextsNames(t: Tag)
    ensures Names(GeneratorTexts(t)) == if "generator-class" in t.attrs then [Some("GeneratedValue")] else []
  {
    if "generator-class" in t.attrs {
      var g := t.attrs["generator-class"];
      ExtractRendered("GeneratedValue", [("strategy", "GenerationType." + GeneratorStrategy(g))]);
    }
  }

  /** `addEntityAnnotations`: `Entity`, then `Table` when the class tag names a table. */
  lemma TableTextsNames(t: Tag)
    ensures Names(TableTexts(t)) == if "table" in t.attrs then [Some("Table")] else []
  {
    if "table" in t.attrs {
      ExtractRendered("Table", TablePairs(t).value);
      NameOf(TableTexts(t)[0], "Table");
    }
  }

  lemma EntityTextsNames(t: Tag)
    ensures Names(EntityTexts(t)) == [Some("Entity")] + if "table" in t.attrs then [Some("Table")] else []
  {
    EntityExtracted();
    TableTextsNames(t);
    NamesCons("@Entity", "Entity", TableTexts(t), Names(TableTexts(t)));
  }

  /** `processId`: `Id`, then `GeneratedValue` and `Column` when their attributes are there. */
  lemma IdTextsNames(t: Tag)
    ensures Names(IdTexts(t)) == [Some("Id")]
      + (if "generator-class" in t.attrs then [Some("GeneratedValue")] else [])
      + (if "column" in t.attrs then [Some("Column")] else [])
  {
    IdTextsSplit(t);
    GeneratorTextsNames(t);
    ColumnTextsNames(t);
  }

  lemma IdTextsSplit(t: Tag)
    ensures Names(IdTexts(t)) == [Some("Id")] + Names(GeneratorTexts(t)) + Names(ColumnTexts(t))
  {
    IdName();
    NamesCons2("@Id", "Id", GeneratorTexts(t), ColumnTexts(t));
  }

  /** `processProperty`: `Column` when named, then `Temporal` for a timestamp type. */
  lemma PropertyTextsNames(t: Tag)
    ensures Names(PropertyTexts(t)) == (if "column" in t.attrs then [Some("Column")] else [])
      + (if "type" in t.attrs && Contains(t.attrs["type"], "timestamp") then [Some("Temporal")] else [])
  {
    NamesAppend(ColumnTexts(t), TemporalTexts(t));
    ColumnTextsNames(t);
    if TemporalTexts(t) != [] {
      TemporalName();
      NameOf(TemporalText, "Temporal");
    }
  }

  /** A text with a single attribute. */
  lemma RenderOne(name: string, key: string, value: string)
    ensures Render(name, [(key, value)]) == "@" + name + "(" + key + " = " + value + ")"
  {
    assert Entries([(key, value)]) == [key + " = " + value];
  }

  /** `processManyToOne` writes its join column as `@JoinColumn(name = "c")`. */
  lemma JoinColumnTextLiteral(t: Tag)
    requires "column" in t.attrs
    ensures JoinColumnTexts(t) == ["@JoinColumn(name = \"" + t.attrs["column"] + "\")"]
  {
    var c := t.attrs["column"];
    RenderOne("JoinColumn", "name", Quoted(c));
    var a := "@JoinColumn(name = ";
    assert "@" + "JoinColumn" + "(" + "name" + " = " == a;
    assert a + Quoted(c) + ")" == a + "\"" + c + ("\"" + ")");
    assert a + "\"" == "@JoinColumn(name = \"";
    assert "\"" + ")" == "\")";
    assert JoinColumnTexts(t) == [Render("JoinColumn", [("name", Quoted(c))])];
  }

  /** `processId` writes its generator as `@GeneratedValue(strategy = GenerationType.S)`. */
  lemma GeneratorTextLiteral(t: Tag)
    requires "generator-class" in t.attrs
    ensures GeneratorTexts(t) ==
      ["@GeneratedValue(strategy = GenerationType." + GeneratorStrategy(t.attrs["generator-class"]) + ")"]
  {
    var g := t.attrs["generator-class"];
    GeneratedValueLiteral(GeneratorStrategy(g));
    assert GeneratorTexts(t) == [GeneratedValueText(g)];
  }

  lemma GeneratedValueLiteral(st: string)
    ensures Render("GeneratedValue", [("strategy", "GenerationType." + st)])
      == "@GeneratedValue(strategy = GenerationType." + st + ")"
  {
    var v := "GenerationType." + st;
    RenderOne("GeneratedValue", "strategy", v);
    var a := "@GeneratedValue(strategy = ";
    assert "@" + "GeneratedValue" + "(" + "strategy" + " = " == a;
    assert a + v + ")" == a + "GenerationType." + st + ")";
    assert a + "GenerationType." == "@GeneratedValue(strategy = GenerationType.";
  }

  /** `processIdClassStrategy` writes `@IdClass(X.class)` for the class the composite id names. */
  lemma IdClassTextLiteral(t: Tag)
    requires "class" in t.attrs
    ensures IdClassTexts(t) == ["@IdClass(" + t.attrs["class"] + ".class)"]
  {
    var x := t.attrs["class"];
    assert "@" + "IdClass" + "(" == "@IdClass(";
    assert "@IdClass(" + (x + ".class)") == "@IdClass(" + x + ".class)";
  }

  /** A key many-to-one's join column is the same text a many-to-one's is. */
  lemma KeyJoinColumnAsRelation(t: Tag)
    ensures KeyJoinColumnTexts(t) == JoinColumnTexts(t)
  {
  }

  /** `processManyToOne`: `ManyToOne`, then `JoinColumn` when the tag names a column. */
  lemma JoinColumnTextsNames(t: Tag)
    ensures Names(JoinColumnTexts(t)) == if "column" in t.attrs then [Some("JoinColumn")] else []
  {
    if "column" in t.attrs {
      var jc := Render("JoinColumn", [("name", Quoted(t.attrs["column"]))]);
      ExtractRendered("JoinColumn", [("name", Quoted(t.attrs["column"]))]);
      NameOf(jc, "JoinColumn");
    }
  }

  lemma ManyToOneTextsNames(t: Tag)
    ensures Names(ManyToOneTexts(t)) == [Some("ManyToOne")] + if "column" in t.attrs then [Some("JoinColumn")] else []
  {
    ExtractRendered("ManyToOne", ManyToOnePairs(t));
    JoinColumnTextsNames(t);
    NamesCons(Render("ManyToOne", ManyToOnePairs(t)), "ManyToOne", JoinColumnTexts(t), Names(JoinColumnTexts(t)));
  }

  /** `processOneToMany`: `OneToMany` alone. */
  lemma OneToManyTextNames(t: Tag)
    ensures Names([Render("OneToMany", RelationPairs(t))]) == [Some("OneToMany")]
  {
    ExtractRendered("OneToMany", RelationPairs(t));
  }

  /** `processManyToMany`: `ManyToMany`, then `JoinTable` for the first `join-table` sub-tag. */
  lemma JoinTableTextsNames(t: Tag)
    ensures Names(JoinTableTexts(t)) == if FirstSubTag(t, "join-table").Some? then [Some("JoinTable")] else []
  {
    if FirstSubTag(t, "join-table").Some? {
      var jt := FirstSubTag(t, "join-table").value;
      ExtractRendered("JoinTable", JoinTablePairs(jt));
      NameOf(JoinTableText(jt), "JoinTable");
    }
  }

  lemma ManyToManyTextsNames(t: Tag)
    ensures Names(ManyToManyTexts(t)) == [Some("ManyToMany")]
      + if FirstSubTag(t, "join-table").Some? then [Some("JoinTable")] else []
  {
    ExtractRendered("ManyToMany", RelationPairs(t));
    JoinTableTextsNames(t);
    NamesCons(Render("ManyToMany", RelationPairs(t)), "ManyToMany", JoinTableTexts(t), Names(JoinTableTexts(t)));
  }

  /** Every nested join column of `processJoinColumns` is read as `JoinColumn`. */
  lemma JoinColumnStringsNames(cols: seq<Tag>)
    ensures forall i :: 0 <= i < |cols| ==> ExtractQualifiedName(JoinColumnStrings(cols)[i]) == Some("JoinColumn")
  {
    forall i | 0 <= i < |cols|
      ensures ExtractQualifiedName(JoinColumnStrings(cols)[i]) == Some("JoinColumn")
    {
      ExtractRendered("JoinColumn", JoinColumnPairs(cols[i]));
    }
  }

  /** `processKeyManyToOne`: `ManyToOne`, then `JoinColumn` when the key names a column. */
  lemma KeyManyToOneTextsNames(t: Tag)
    ensures Names(KeyManyToOneTexts(t)) == [Some("ManyToOne")] + if "column" in t.attrs then [Some("JoinColumn")] else []
  {
    KeyJoinColumnAsRelation(t);
    JoinColumnTextsNames(t);
    ManyToOneName();
    NamesCons("@ManyToOne", "ManyToOne", KeyJoinColumnTexts(t), Names(KeyJoinColumnTexts(t)));
  }

  /** `processIdClassStrategy`'s class annotation: `IdClass` when the composite id names its class. */
  lemma IdClassTextsNames(t: Tag)
    ensures Names(IdClassTexts(t)) == if "class" in t.attrs then [Some("IdClass")] else []
  {
    if "class" in t.attrs {
      IdClassTextName(t.attrs["class"]);
    }
  }

  /** `processIdClassProperty`: `Id`, then `Column`. */
  lemma IdClassPropertyTextsNames(t: Tag)
    ensures Names(IdClassPropertyTexts(t)) == [Some("Id"), Some("Column")]
  {
    IdName();
    IdClassColumnName(t);
  }

  /** `processIdClassManyToOne`: `Id`, `ManyToOne`, then `JoinColumn` when the key names a column. */
  lemma IdClassManyToOneTextsNames(t: Tag)
    ensures Names(IdClassManyToOneTexts(t)) == [Some("Id"), Some("ManyToOne")]
      + if "column" in t.attrs then [Some("JoinColumn")] else []
  {
    IdClassManyToOneSplit(t);
    KeyManyToOneTextsNames(t);
    var k: seq<Option<string>> := if "column" in t.attrs then [Some("JoinColumn")] else [];
    Regroup(Names(IdClassManyToOneTexts(t)), Some("Id"), Some("ManyToOne"), k);
  }

  lemma Regroup<T>(s: seq<T>, a: T, b: T, k: seq<T>)
    requires s == [a] + ([b] + k)
    ensures s == [a, b] + k
  {
  }

  lemma IdClassManyToOneSplit(t: Tag)
    ensures Names(IdClassManyToOneTexts(t)) == [Some("Id")] + Names(KeyManyToOneTexts(t))
  {
    IdName();
    NamesCons("@Id", "Id", KeyManyToOneTexts(t), Names(KeyManyToOneTexts(t)));
  }

  /** A `fetch` value does not depend on the letter case the mapping file uses. */
  lemma FetchValueIgnoresCase(t: Tag)
    requires "fetch" in t.attrs
    ensures FetchValue(t.(attrs := t.attrs["fetch" := ToLower(t.attrs["fetch"])])) == FetchValue(t)
  {
    UpperOfLower(t.attrs["fetch"]);
  }
}
