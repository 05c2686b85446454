/**
 * The annotation texts the mapping-file converter builds from a tag's
 * attributes. Every attribute list is built by appending optional
 * attributes in a fixed key order (`Pairs`), so each text is characterised
 * by what each key reads back (`Lookup`) and by the order of its keys.
 */
module HibernateText {
  import opened Wrappers
  import opened Seqs
  import opened Strings
  import opened Xml
  import opened AnnotationText

  /** `getGeneratorStrategy`: the JPA generation type for a generator class, ignoring letter case. */
  function GeneratorStrategy(generator: string): (r: string)
    ensures r in ["IDENTITY", "SEQUENCE", "TABLE", "AUTO"]
    ensures r == "AUTO" <==> ToLower(generator) !in ["identity", "sequence", "table"]
    ensures r != "AUTO" ==> ToLower(r) == ToLower(generator)
  {
    match ToLower(generator)
    case "identity" => "IDENTITY"
    case "sequence" => "SEQUENCE"
    case "table" => "TABLE"
    case _ => "AUTO"
  }

  /** The strategy does not depend on the letter case the mapping file uses. */
  lemma GeneratorStrategyIgnoresCase(generator: string)
    ensures GeneratorStrategy(ToUpper(generator)) == GeneratorStrategy(generator)
  {
    LowerOfUpper(generator);
  }

  /** An attribute's value written as a Java string literal. */
  function QuotedAttr(t: Tag, key: string): (r: Option<string>)
    ensures r.Some? <==> key in t.attrs
    ensures r.Some? ==> r.value == Quoted(t.attrs[key])
  {
    if key in t.attrs then Some(Quoted(t.attrs[key])) else None
  }

  /** `@Table`'s attributes: nothing without a `table` attribute, else name, schema, catalog. */
  function TablePairs(t: Tag): (r: Option<seq<Pair>>)
    ensures r.None? <==> "table" !in t.attrs
  {
    if "table" !in t.attrs then None
    else Some(Pairs(TableKeys, [QuotedAttr(t, "table"), QuotedAttr(t, "schema"), QuotedAttr(t, "catalog")]))
  }

  const TableKeys: seq<string> := ["name", "schema", "catalog"]

  /** `@Table` names the table, then the schema and the catalog when the class tag gives them, quoted. */
  lemma TablePairsRead(t: Tag)
    requires "table" in t.attrs
    ensures var ps := TablePairs(t).value;
      Lookup(ps, "name") == QuotedAttr(t, "table") &&
      Lookup(ps, "schema") == QuotedAttr(t, "schema") &&
      Lookup(ps, "catalog") == QuotedAttr(t, "catalog") &&
      IsSubsequence(Keys(ps), TableKeys)
  {
    var vs := [QuotedAttr(t, "table"), QuotedAttr(t, "schema"), QuotedAttr(t, "catalog")];
    PairsLookup(TableKeys, vs, 0);
    PairsLookup(TableKeys, vs, 1);
    PairsLookup(TableKeys, vs, 2);
    PairsKeysInOrder(TableKeys, vs);
  }

  /** `@Table(...)` when the class tag names a table, else nothing. */
  function TableTexts(t: Tag): (r: seq<string>)
    ensures |r| <= 1
    ensures r != [] <==> "table" in t.attrs
  {
    match TablePairs(t)
    case None => []
    case Some(ps) => [Render("Table", ps)]
  }

  /** `addEntityAnnotations`: `@Entity`, then the table. */
  function EntityTexts(t: Tag): (r: seq<string>)
    ensures |r| >= 1 && r[0] == "@Entity"
  {
    ["@Entity"] + TableTexts(t)
  }

  /** `nullable` is the negation of `Boolean.parseBoolean(not-null)`. */
  function NullableValue(notNull: Option<string>): (r: Option<string>)
    ensures r.Some? <==> notNull.Some?
    ensures r.Some? ==> r.value in ["true", "false"]
    ensures r.Some? ==> (r.value == "false" <==> ToLower(notNull.value) == "true")
  {
    match notNull
    case None => None
    case Some(v) => Some(BoolText(!ParseBoolean(v)))
  }

  const ColumnKeys: seq<string> := ["name", "length", "nullable", "unique"]

  /**
   * `processColumnDetails`' attribute list: nothing without a `column`
   * attribute; otherwise name, length, nullable and unique, in that order,
   * each when its attribute is there, with `unique` copied as written.
   */
  function ColumnPairs(t: Tag): (r: Option<seq<Pair>>)
    ensures r.None? <==> "column" !in t.attrs
  {
    if "column" !in t.attrs then None
    else Some(Pairs(ColumnKeys, ColumnValues(t)))
  }

  function ColumnValues(t: Tag): seq<Option<string>> {
    [QuotedAttr(t, "column"), Attr(t, "length"), NullableValue(Attr(t, "not-null")), Attr(t, "unique")]
  }

  /**
   * With a `column` attribute, `@Column` carries the quoted column name, the
   * length as written, `nullable` negating `not-null`, and `unique` as
   * written, each only when its attribute is there, in that order.
   */
  lemma ColumnPairsRead(t: Tag)
    requires "column" in t.attrs
    ensures var ps := ColumnPairs(t).value;
      Lookup(ps, "name") == QuotedAttr(t, "column") &&
      Lookup(ps, "length") == Attr(t, "length") &&
      Lookup(ps, "nullable") == NullableValue(Attr(t, "not-null")) &&
      Lookup(ps, "unique") == Attr(t, "unique") &&
      IsSubsequence(Keys(ps), ColumnKeys)
  {
    var vs := ColumnValues(t);
    PairsLookup(ColumnKeys, vs, 0);
    PairsLookup(ColumnKeys, vs, 1);
    PairsLookup(ColumnKeys, vs, 2);
    PairsLookup(ColumnKeys, vs, 3);
    PairsKeysInOrder(ColumnKeys, vs);
  }

  /** The `@Column(...)` text, or none without a `column` attribute. */
  function ColumnTexts(t: Tag): (r: seq<string>)
    ensures |r| <= 1
    ensures r == [] <==> "column" !in t.attrs
    ensures r != [] ==> r[0] == Render("Column", ColumnPairs(t).value)
  {
    match ColumnPairs(t)
    case None => []
    case Some(ps) => [Render("Column", ps)]
  }

  /**
   * `addColumnAnnotation`, which the converter never calls: the attribute
   * list of `processColumnDetails`, built whether or not a `column` is
   * there, and `@Column(...)` only when that list is not empty.
   */
  function StandaloneColumnTexts(t: Tag): (r: seq<string>)
    ensures |r| <= 1
  {
    var ps := Pairs(ColumnKeys, ColumnValues(t));
    if ps == [] then [] else [Render("Column", ps)]
  }

  /**
   * The standalone `@Column` is written exactly when one of `column`,
   * `length`, `not-null` and `unique` is there, and with a `column` it is
   * the one `processColumnDetails` writes.
   */
  lemma StandaloneColumnWritten(t: Tag)
    ensures StandaloneColumnTexts(t) == []
        <==> "column" !in t.attrs && "length" !in t.attrs && "not-null" !in t.attrs && "unique" !in t.attrs
    ensures "column" in t.attrs ==> StandaloneColumnTexts(t) == ColumnTexts(t)
  {
    var vs := ColumnValues(t);
    PairsEmpty(ColumnKeys, vs);
    assert vs[0].None? <==> "column" !in t.attrs;
    assert vs[3].None? <==> "unique" !in t.attrs;
  }

  /** `@GeneratedValue(strategy = GenerationType.X)`. */
  function GeneratedValueText(generator: string): string {
    Render("GeneratedValue", [("strategy", "GenerationType." + GeneratorStrategy(generator))])
  }

  /** `@GeneratedValue(...)` when the id tag names a generator class, else nothing. */
  function GeneratorTexts(t: Tag): (r: seq<string>)
    ensures |r| <= 1
    ensures r != [] <==> "generator-class" in t.attrs
    ensures r != [] ==> r[0] == GeneratedValueText(t.attrs["generator-class"])
  {
    match Attr(t, "generator-class")
    case None => []
    case Some(g) => [GeneratedValueText(g)]
  }

  /** `processId`'s texts: `@Id`, the generator, then the column. */
  function IdTexts(t: Tag): (r: seq<string>)
    ensures |r| >= 1 && r[0] == "@Id"
    ensures |r| == 1 + |GeneratorTexts(t)| + |ColumnTexts(t)|
  {
    ["@Id"] + GeneratorTexts(t) + ColumnTexts(t)
  }

  const TemporalText: string := "@Temporal(TemporalType.TIMESTAMP)"

  /** `@Temporal(TemporalType.TIMESTAMP)` when the property's type mentions `timestamp`, else nothing. */
  function TemporalTexts(t: Tag): (r: seq<string>)
    ensures r == [] || r == [TemporalText]
    ensures r != [] <==> "type" in t.attrs && Contains(t.attrs["type"], "timestamp")
  {
    if "type" in t.attrs && Contains(t.attrs["type"], "timestamp") then [TemporalText] else []
  }

  /** `processProperty`'s texts: the column, then the temporal type. */
  function PropertyTexts(t: Tag): (r: seq<string>)
    ensures ColumnTexts(t) <= r && |r| <= |ColumnTexts(t)| + 1
    ensures TemporalText in r <==> "type" in t.attrs && Contains(t.attrs["type"], "timestamp")
  {
    ColumnTextsNotTemporal(t);
    ColumnTexts(t) + TemporalTexts(t)
  }

  lemma ColumnTextsNotTemporal(t: Tag)
    ensures TemporalText !in ColumnTexts(t)
  {
    if ColumnTexts(t) != [] {
      ColumnTextNotTemporal(ColumnPairs(t).value);
    }
  }

  lemma ColumnTextNotTemporal(ps: seq<Pair>)
    ensures Render("Column", ps) != TemporalText
  {
    var c := Render("Column", ps);
    assert c[1] == 'C';
    assert TemporalText[1] == 'T';
  }

  /** A `fetch` attribute as `FetchType.X`, upper-cased. */
  function FetchValue(t: Tag): (r: Option<string>)
    ensures r.Some? <==> "fetch" in t.attrs
    ensures r.Some? ==> r.value == "FetchType." + ToUpper(t.attrs["fetch"])
  {
    match Attr(t, "fetch")
    case None => None
    case Some(f) => Some("FetchType." + ToUpper(f))
  }

  /** `@ManyToOne(...)`'s attributes: at most `fetch`. */
  function ManyToOnePairs(t: Tag): (r: seq<Pair>)
    ensures r == [] <==> "fetch" !in t.attrs
    ensures r != [] ==> r == [("fetch", FetchValue(t).value)]
  {
    Pairs(["fetch"], [FetchValue(t)])
  }

  /** `@JoinColumn(name = ...)` when the relation tag names a column, else nothing. */
  function JoinColumnTexts(t: Tag): (r: seq<string>)
    ensures |r| <= 1
    ensures r != [] <==> "column" in t.attrs
    ensures r != [] ==> r[0] == Render("JoinColumn", [("name", Quoted(t.attrs["column"]))])
  {
    match Attr(t, "column")
    case None => []
    case Some(c) => [Render("JoinColumn", [("name", Quoted(c))])]
  }

  /** `processManyToOne`'s texts: `@ManyToOne(...)`, then the join column. */
  function ManyToOneTexts(t: Tag): (r: seq<string>)
    ensures |r| >= 1 && r[0] == Render("ManyToOne", ManyToOnePairs(t))
  {
    [Render("ManyToOne", ManyToOnePairs(t))] + JoinColumnTexts(t)
  }

  /** The attributes of `@OneToMany(...)` and `@ManyToMany(...)`: `mappedBy` before `fetch`. */
  function RelationPairs(t: Tag): (r: seq<Pair>)
    ensures r == [] <==> "mapped-by" !in t.attrs && "fetch" !in t.attrs
  {
    Pairs(RelationKeys, [QuotedAttr(t, "mapped-by"), FetchValue(t)])
  }

  const RelationKeys: seq<string> := ["mappedBy", "fetch"]

  /** `mappedBy` (quoted) comes before `fetch` (upper-cased), each only when given. */
  lemma RelationPairsRead(t: Tag)
    ensures var ps := RelationPairs(t);
      Lookup(ps, "mappedBy") == QuotedAttr(t, "mapped-by") &&
      Lookup(ps, "fetch") == FetchValue(t) &&
      IsSubsequence(Keys(ps), RelationKeys)
  {
    var vs := [QuotedAttr(t, "mapped-by"), FetchValue(t)];
    PairsLookup(RelationKeys, vs, 0);
    PairsLookup(RelationKeys, vs, 1);
    PairsKeysInOrder(RelationKeys, vs);
  }

  /** `createJoinColumnString`: `@JoinColumn(...)` with name and then referencedColumnName. */
  function JoinColumnPairs(jc: Tag): (r: seq<Pair>)
    ensures |r| <= 2
  {
    Pairs(JoinColumnKeys, [QuotedAttr(jc, "name"), QuotedAttr(jc, "referenced-column-name")])
  }

  const JoinColumnKeys: seq<string> := ["name", "referencedColumnName"]

  /** A nested `@JoinColumn` has the quoted name, then the quoted referenced column, each only when given. */
  lemma JoinColumnPairsRead(jc: Tag)
    ensures var ps := JoinColumnPairs(jc);
      Lookup(ps, "name") == QuotedAttr(jc, "name") &&
      Lookup(ps, "referencedColumnName") == QuotedAttr(jc, "referenced-column-name") &&
      IsSubsequence(Keys(ps), JoinColumnKeys)
  {
    var vs := [QuotedAttr(jc, "name"), QuotedAttr(jc, "referenced-column-name")];
    PairsLookup(JoinColumnKeys, vs, 0);
    PairsLookup(JoinColumnKeys, vs, 1);
    PairsKeysInOrder(JoinColumnKeys, vs);
  }

  function JoinColumnString(jc: Tag): string {
    Render("JoinColumn", JoinColumnPairs(jc))
  }

  /** `processJoinColumns`: `{...}` over the `join-column` sub-tags, or nothing when there are none. */
  function JoinColumnsValue(jt: Tag): (r: Option<string>)
    ensures r.None? <==> SubTagsNamed(jt, "join-column") == []
    ensures r.Some? ==> r.value == "{" + Join(JoinColumnStrings(SubTagsNamed(jt, "join-column")), ", ") + "}"
  {
    var cols := SubTagsNamed(jt, "join-column");
    if cols == [] then None else Some("{" + Join(JoinColumnStrings(cols), ", ") + "}")
  }

  function JoinColumnStrings(cols: seq<Tag>): (r: seq<string>)
    ensures |r| == |cols|
    ensures forall i :: 0 <= i < |cols| ==> r[i] == JoinColumnString(cols[i])
  {
    seq(|cols|, i requires 0 <= i < |cols| => JoinColumnString(cols[i]))
  }

  /** `processJoinTable`'s attributes: the table name, then `joinColumns` only when there are join columns. */
  function JoinTablePairs(jt: Tag): (r: seq<Pair>)
    ensures |r| <= 2
  {
    Pairs(JoinTableKeys, [QuotedAttr(jt, "name"), JoinColumnsValue(jt)])
  }

  const JoinTableKeys: seq<string> := ["name", "joinColumns"]

  /**
   * `@JoinTable` has the quoted table name when given, then `joinColumns`,
   * which is there exactly when the tag has `join-column` sub-tags.
   */
  lemma JoinTablePairsRead(jt: Tag)
    ensures var ps := JoinTablePairs(jt);
      Lookup(ps, "name") == QuotedAttr(jt, "name") &&
      Lookup(ps, "joinColumns") == JoinColumnsValue(jt) &&
      (Lookup(ps, "joinColumns").None? <==> SubTagsNamed(jt, "join-column") == []) &&
      IsSubsequence(Keys(ps), JoinTableKeys)
  {
    var vs := [QuotedAttr(jt, "name"), JoinColumnsValue(jt)];
    PairsLookup(JoinTableKeys, vs, 0);
    PairsLookup(JoinTableKeys, vs, 1);
    PairsKeysInOrder(JoinTableKeys, vs);
  }

  function JoinTableText(jt: Tag): string {
    Render("JoinTable", JoinTablePairs(jt))
  }

  /** `@JoinTable(...)` for the first `join-table` sub-tag, else nothing. */
  function JoinTableTexts(t: Tag): (r: seq<string>)
    ensures |r| <= 1
    ensures r != [] <==> FirstSubTag(t, "join-table").Some?
    ensures r != [] ==> r[0] == JoinTableText(FirstSubTag(t, "join-table").value)
  {
    match FirstSubTag(t, "join-table")
    case None => []
    case Some(jt) => [JoinTableText(jt)]
  }

  /** `processManyToMany`'s texts: `@ManyToMany(...)`, then the join table. */
  function ManyToManyTexts(t: Tag): (r: seq<string>)
    ensures |r| >= 1 && r[0] == Render("ManyToMany", RelationPairs(t))
  {
    [Render("ManyToMany", RelationPairs(t))] + JoinTableTexts(t)
  }

  /** `isEmbeddableStrategy`: the composite id nests a `class` tag. */
  predicate IsEmbeddableStrategy(compositeId: Tag) {
    FirstSubTag(compositeId, "class").Some?
  }

  /**
   * The `@Column` attributes of an embedded key property, gathered in a
   * `HashMap` (quoted column name, length as written) and listed in the
   * order the map yields, which `nameFirst` stands for.
   */
  function KeyColumnPairs(t: Tag, nameFirst: bool): (r: seq<Pair>)
    ensures |r| <= 2
  {
    if nameFirst then Pairs(["name", "length"], [QuotedAttr(t, "column"), Attr(t, "length")])
    else Pairs(["length", "name"], [Attr(t, "length"), QuotedAttr(t, "column")])
  }

  /** Whatever order the map yields, the embedded key column has the quoted column name and the length, each when given, and nothing else. */
  lemma KeyColumnPairsRead(t: Tag, nameFirst: bool)
    ensures var ps := KeyColumnPairs(t, nameFirst);
      Lookup(ps, "name") == QuotedAttr(t, "column") &&
      Lookup(ps, "length") == Attr(t, "length") &&
      (forall k :: k in Keys(ps) ==> k in ["name", "length"])
  {
    var ks := if nameFirst then ["name", "length"] else ["length", "name"];
    var vs := if nameFirst then [QuotedAttr(t, "column"), Attr(t, "length")] else [Attr(t, "length"), QuotedAttr(t, "column")];
    PairsLookup(ks, vs, 0);
    PairsLookup(ks, vs, 1);
    forall k | k in Keys(Pairs(ks, vs)) ensures k in ["name", "length"] {
      PairsKeysOffered(ks, vs, k);
    }
  }

  /** `processKeyProperty`'s text: a bare `@Column` when neither attribute is there. */
  function KeyPropertyText(t: Tag, nameFirst: bool): string {
    BuildAnnotationText("Column", KeyColumnPairs(t, nameFirst))
  }

  /** `@JoinColumn(name = ...)` for a key many-to-one that names a column, else nothing. */
  function KeyJoinColumnTexts(t: Tag): (r: seq<string>)
    ensures |r| <= 1
    ensures r != [] <==> "column" in t.attrs
    ensures r != [] ==> r[0] == BuildAnnotationText("JoinColumn", [("name", Quoted(t.attrs["column"]))])
  {
    match Attr(t, "column")
    case None => []
    case Some(c) => [BuildAnnotationText("JoinColumn", [("name", Quoted(c))])]
  }

  /** `processKeyManyToOne`'s texts: `@ManyToOne`, then the join column. */
  function KeyManyToOneTexts(t: Tag): (r: seq<string>)
    ensures |r| >= 1 && r[0] == "@ManyToOne"
  {
    ["@ManyToOne"] + KeyJoinColumnTexts(t)
  }

  /** `@IdClass(X.class)`. */
  function IdClassText(idClass: string): string {
    "@" + "IdClass" + "(" + (idClass + ".class)")
  }

  /** `@IdClass(X.class)` when the composite id names its class, else nothing. */
  function IdClassTexts(t: Tag): (r: seq<string>)
    ensures |r| <= 1
    ensures r != [] <==> "class" in t.attrs
    ensures r != [] ==> r[0] == IdClassText(t.attrs["class"])
  {
    match Attr(t, "class")
    case None => []
    case Some(x) => [IdClassText(x)]
  }

  /** The `@Column` of an id-class key property: the quoted column name, or a bare `@Column` without one. */
  function IdClassColumnText(t: Tag): (r: string)
    ensures "column" !in t.attrs ==> r == "@Column"
    ensures "column" in t.attrs ==> r == Render("Column", [("name", Quoted(t.attrs["column"]))])
  {
    BuildAnnotationText("Column", Pairs(["name"], [QuotedAttr(t, "column")]))
  }

  /** `processIdClassProperty`'s texts: `@Id`, then the column. */
  function IdClassPropertyTexts(t: Tag): (r: seq<string>)
    ensures |r| == 2 && r[0] == "@Id"
  {
    ["@Id"] + [IdClassColumnText(t)]
  }

  /** `processIdClassManyToOne`'s texts: `@Id`, then what an embedded key many-to-one gets. */
  function IdClassManyToOneTexts(t: Tag): (r: seq<string>)
    ensures |r| >= 2 && r[0] == "@Id" && r[1..] == KeyManyToOneTexts(t)
  {
    ["@Id"] + KeyManyToOneTexts(t)
  }
}
