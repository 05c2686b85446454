# Hibernate and Spring XML-to-annotations converters, modelled in Dafny

The plugin has two editor actions. Each rewrites legacy XML configuration as Java annotations on the
project's classes.

* **Hibernate mapping → JPA annotations.** The action reads a `hibernate-mapping` file.
  * Scope: each `class` tag (only the ones inside the editor selection, if there is one) names a
    project class.
  * Class annotations: the class gets `@Entity` and, if given, `@Table(...)`.
  * Field annotations: the class's `id`, `property`, `many-to-one`, `one-to-many`, `many-to-many`
    and `composite-id` tags annotate the fields they name. They add `@Id`,
    `@GeneratedValue`, `@Column`, `@Temporal`, `@ManyToOne`, `@JoinColumn`, `@OneToMany`,
    `@ManyToMany` and `@JoinTable`.
  * Composite ids: a composite id follows one of two strategies.
    * The embedded-id strategy applies when the composite id nests a `class` tag. The field gets
      `@EmbeddedId`, and the key class gets `@Embeddable` plus the key columns.
    * Otherwise the id-class strategy applies. The class gets `@IdClass(X.class)`, and every key
      field gets `@Id`.
  * Every add goes through one guard, `addAnnotationIfNotPresent`. The guard reads the annotation's
    name out of its text and skips the add when the declaration already carries an annotation of
    that name. If creating the annotation fails, the error is reported and the run goes on.
* **Spring beans → stereotype and injection annotations.** The action reads a `beans` file.
  * Each `bean` names a project class. The class gets `@Component`, unless it already carries one
    of the stereotype annotations.
  * Each `property` gets `@Autowired` (for a `ref`, unless already present) and/or `@Value("...")`
    (for a `value`, with no check) on the field it names.
  * When the bean has constructor arguments, the first constructor with that many parameters gets
    `@Autowired`.
  * Each bean's adds run in a write command of their own. Nothing catches a failed annotation
    creation, so the failure aborts the rest of the conversion. The annotations already added
    stay.

## How the model is built

* **Java declarations** (classes, fields, constructors) are objects of the class `Psi.Decl`. The
  mutable field `annotations` holds the declaration's annotation list, front first. The ghost
  function `Psi.Snap(u)` views a set of declarations as a map `Heap` from declaration to list.
* **The XML** is a value `Xml.Tag`: name, attributes, children and text range.
* **The host** is a parameter `create: string -> Option<Annotation>`. Given an annotation text, the
  IDE's element factory either builds an annotation or fails. The annotation records its
  *resolved* qualified name, which may differ from the name written in the text once imports are
  resolved.
* **Two layers.** Each action appears twice.
  * First, as pure functions that list what the source asks for, in order: Hibernate's `Write`s
    and Spring's `Op`s.
  * Second, as methods that change the `annotations` fields exactly as the source does.
  * Each method's postcondition ties the new state to the fold of its list over the old state:
    `MergeGuard.Apply` for Hibernate, `SpringAction.Run` for Spring. The properties are lemmas
    about those folds.
* **What the guard reads back.** `HibernateNames` states, for each kind of mapping tag, the
  sequence of names the guard extracts from the texts the converter writes. For the texts the
  source builds with a single `String.format`, it also states the literal text.
* **Findings are parameters.** The two points where the source is wrong (see Findings) are
  parameters of the model: the Hibernate guard's comparison (`MergeGuard.Guard`) and the Spring
  stereotype list (`SpringAction.Env.stereotypes`). Every operation is proved for both the
  as-written and the corrected choice, and the lemmas state which choice they need.

## Model

| member | source | states |
|---|---|---|
| AnnotationText.ExtractQualifiedName | src/main/java/org/Roshan/HibernateXmlToAnnotationsAction.java:439-453 | null for empty text; otherwise the trimmed text before the first `(`, with one leading `@` dropped, and never longer than the text |
| AnnotationText.ExtractCutsAtParen | src/main/java/org/Roshan/HibernateXmlToAnnotationsAction.java:439-453 | a `(` after the first character ends the name, so the name holds no `(`; a `(` at the very start, or none, leaves the whole trimmed text |
| AnnotationText.ExtractRendered | src/main/java/org/Roshan/HibernateXmlToAnnotationsAction.java:439-453 | an annotation rendered as `@Name(...)` reads back as `Name` (the guard's name round-trips through the text built for it) |
| AnnotationText.ExtractBuilt | src/main/java/org/Roshan/HibernateXmlToAnnotationsAction.java:494-507 | the guard reads back `Name` from everything `buildAnnotationText` writes, the bare `@Name` included |
| AnnotationText.SimpleName | src/main/java/org/Roshan/HibernateXmlToAnnotationsAction.java:482-485 | `getSimpleName`: a suffix of the name containing no `.`; when it is shorter than the name, the character before it is a `.` that is not the first character |
| AnnotationText.SimpleNameWhole | src/main/java/org/Roshan/HibernateXmlToAnnotationsAction.java:482-485 | the whole name is kept exactly when no `.` appears after its first character, so a single leading `.` is kept |
| AnnotationText.SimpleNameIdempotent | src/main/java/org/Roshan/HibernateXmlToAnnotationsAction.java:482-485 | taking the simple name twice is taking it once |
| AnnotationText.PairsLookup | src/main/java/org/Roshan/HibernateXmlToAnnotationsAction.java:355-386 | the attribute list built from optional values holds each key with its value exactly when the value is present |
| AnnotationText.PairsKeysInOrder | src/main/java/org/Roshan/HibernateXmlToAnnotationsAction.java:355-386 | its keys keep the order of the insertion-ordered map the source builds |
| AnnotationText.PairsEmpty | src/main/java/org/Roshan/HibernateXmlToAnnotationsAction.java:380-385 | the attribute list is empty exactly when no value is present, which is when the source skips the annotation |
| MergeGuard.Merged | src/main/java/org/Roshan/HibernateXmlToAnnotationsAction.java:404-431 | one guarded add: the list is unchanged when the name is unreadable, already present or the creation fails; otherwise the created annotation goes in front |
| MergeGuard.AddAnnotationIfNotPresent | src/main/java/org/Roshan/HibernateXmlToAnnotationsAction.java:404-431 | the target's new list is the guarded merge of the old one, and no other declaration changes |
| MergeGuard.AddMultipleAnnotations | src/main/java/org/Roshan/HibernateXmlToAnnotationsAction.java:517-522 | the new state is the guarded adds of every text, in order, on the old state |
| MergeGuard.AsWrittenWithinBySimpleName | src/main/java/org/Roshan/HibernateXmlToAnnotationsAction.java:462-474 | whatever the as-written comparison recognises, the corrected comparison recognises too |
| MergeGuard.PresentInLonger | src/main/java/org/Roshan/HibernateXmlToAnnotationsAction.java:462-474 | `hasAnnotation` stays true when annotations are added in front |
| MergeGuard.ApplyAppend | src/main/java/org/Roshan/HibernateXmlToAnnotationsAction.java:517-522 | running two lists of adds one after the other is running their concatenation |
| MergeGuard.ApplyOnlyPrepends | src/main/java/org/Roshan/HibernateXmlToAnnotationsAction.java:404-431 | adds never remove or reorder: each list only gains at most one annotation per add, in front |
| MergeGuard.ApplyUntargeted | src/main/java/org/Roshan/HibernateXmlToAnnotationsAction.java:404-431 | a declaration no add is aimed at keeps its list |
| MergeGuard.ApplyKeepsAdded | src/main/java/org/Roshan/HibernateXmlToAnnotationsAction.java:404-431 | after a run, every add whose text parses and is created has left its annotation, or one the guard matches, on its target |
| MergeGuard.ApplySettles | src/main/java/org/Roshan/HibernateXmlToAnnotationsAction.java:404-431 | when the guard recognises what the host creates, every add of a run has nothing left to do afterwards |
| MergeGuard.ApplySettledIsIdentity | src/main/java/org/Roshan/HibernateXmlToAnnotationsAction.java:404-431 | adds that have nothing left to do change nothing |
| MergeGuard.ApplyIdempotent | src/main/java/org/Roshan/HibernateXmlToAnnotationsAction.java:404-431 | running the same adds twice is running them once, when the guard recognises what the host creates |
| MergeGuard.WrittenNamesRecognised | src/main/java/org/Roshan/HibernateXmlToAnnotationsAction.java:462-474 | without import resolution, both comparisons recognise what was created |
| MergeGuard.ResolvedNamesRecognisedBySimpleName | src/main/java/org/Roshan/HibernateXmlToAnnotationsAction.java:462-474 | with import resolution, the simple-name comparison still recognises what was created |
| MergeGuard.ResolvedNameMerged | src/main/java/org/Roshan/HibernateXmlToAnnotationsAction.java:462-474 | a resolved annotation whose name differs from the text's name is added again by the as-written guard and kept single by the corrected guard |
| MergeGuard.ResolvedNameDuplicated | src/main/java/org/Roshan/HibernateXmlToAnnotationsAction.java:462-474 | as written: two runs of the same add leave two copies of a resolved annotation; the corrected guard leaves one |
| MergeGuard.ResolvedEntityDuplicated | src/main/java/org/Roshan/HibernateXmlToAnnotationsAction.java:123-125 | as written: `@Entity` resolved to `javax.persistence.Entity` is added twice by two runs |
| HibernateText.GeneratorStrategy | src/main/java/org/Roshan/HibernateXmlToAnnotationsAction.java:388-395 | `IDENTITY`, `SEQUENCE` or `TABLE` exactly for those generator names in any letter case, else `AUTO` |
| HibernateText.GeneratorStrategyIgnoresCase | src/main/java/org/Roshan/HibernateXmlToAnnotationsAction.java:388-395 | the strategy does not depend on the case the mapping uses |
| HibernateText.TablePairsRead | src/main/java/org/Roshan/HibernateXmlToAnnotationsAction.java:128-142 | `@Table` has the quoted table, schema and catalog, each only when given, in that order |
| HibernateText.TableTexts | src/main/java/org/Roshan/HibernateXmlToAnnotationsAction.java:128-142 | a `@Table` is asked for exactly when the class tag has a `table` attribute |
| HibernateNames.EntityTextsNames | src/main/java/org/Roshan/HibernateXmlToAnnotationsAction.java:123-143 | the guard reads `Entity`, then `Table` exactly when the class tag names a table |
| HibernateText.NullableValue | src/main/java/org/Roshan/HibernateXmlToAnnotationsAction.java:293-296 | `nullable` is present exactly when `not-null` is, and is `false` exactly when `not-null` parses as true |
| HibernateText.ColumnPairsRead | src/main/java/org/Roshan/HibernateXmlToAnnotationsAction.java:281-307 | `@Column` has the quoted name, the length, nullable and unique, each only when given, in that order |
| HibernateNames.ColumnTextsNames | src/main/java/org/Roshan/HibernateXmlToAnnotationsAction.java:281-307 | the guard reads `Column` exactly when the tag has a `column` attribute, and nothing otherwise |
| HibernateText.StandaloneColumnWritten | src/main/java/org/Roshan/HibernateXmlToAnnotationsAction.java:355-386 | `addColumnAnnotation` writes nothing exactly when none of column, length, not-null, unique is given, and agrees with the column details when `column` is given |
| HibernateNames.GeneratorTextLiteral | src/main/java/org/Roshan/HibernateXmlToAnnotationsAction.java:170-178 | with a generator class, the one text is `@GeneratedValue(strategy = GenerationType.S)` for that class's strategy `S` |
| HibernateNames.GeneratorTextsNames | src/main/java/org/Roshan/HibernateXmlToAnnotationsAction.java:170-178 | the guard reads `GeneratedValue` exactly when the id tag names a generator class |
| HibernateNames.IdTextsNames | src/main/java/org/Roshan/HibernateXmlToAnnotationsAction.java:159-181 | the guard reads `Id`, then `GeneratedValue` when a generator class is named, then `Column` when a column is named, in that order |
| HibernateText.PropertyTexts | src/main/java/org/Roshan/HibernateXmlToAnnotationsAction.java:183-198 | the column texts come first, then at most the temporal text, which appears exactly for timestamp types |
| HibernateNames.PropertyTextsNames | src/main/java/org/Roshan/HibernateXmlToAnnotationsAction.java:183-198 | the guard reads `Column` when a column is named, then `Temporal` exactly when the type mentions `timestamp` |
| HibernateText.ColumnTextsNotTemporal | src/main/java/org/Roshan/HibernateXmlToAnnotationsAction.java:183-198 | a column text is never the temporal text |
| HibernateNames.FetchValueIgnoresCase | src/main/java/org/Roshan/HibernateXmlToAnnotationsAction.java:209-212 | the `fetch` value is upper-cased, so a lower-case `fetch` gives the same `FetchType` constant |
| HibernateText.ManyToOnePairs | src/main/java/org/Roshan/HibernateXmlToAnnotationsAction.java:200-225 | `@ManyToOne` carries `fetch` exactly when it is given, and nothing else |
| HibernateNames.JoinColumnTextLiteral | src/main/java/org/Roshan/HibernateXmlToAnnotationsAction.java:217-224 | with a column, the one text is exactly `@JoinColumn(name = "c")` |
| HibernateNames.ManyToOneTextsNames | src/main/java/org/Roshan/HibernateXmlToAnnotationsAction.java:200-225 | the guard reads `ManyToOne`, then `JoinColumn` exactly when the relation names a column |
| HibernateText.RelationPairsRead | src/main/java/org/Roshan/HibernateXmlToAnnotationsAction.java:227-279 | `@OneToMany`/`@ManyToMany` carry the quoted `mappedBy`, then `fetch`, each only when given |
| HibernateText.JoinColumnPairsRead | src/main/java/org/Roshan/HibernateXmlToAnnotationsAction.java:337-353 | a nested `@JoinColumn` has the quoted name, then the quoted referenced column, each only when given |
| HibernateText.JoinTablePairsRead | src/main/java/org/Roshan/HibernateXmlToAnnotationsAction.java:309-323 | `@JoinTable` has the quoted name, then `joinColumns` only when there are join columns |
| HibernateNames.JoinTableTextsNames | src/main/java/org/Roshan/HibernateXmlToAnnotationsAction.java:275-278 | the guard reads `JoinTable` exactly when there is a `join-table` sub-tag |
| HibernateNames.ManyToManyTextsNames | src/main/java/org/Roshan/HibernateXmlToAnnotationsAction.java:251-279 | the guard reads `ManyToMany`, then `JoinTable` exactly when there is a `join-table` sub-tag |
| HibernateNames.OneToManyTextNames | src/main/java/org/Roshan/HibernateXmlToAnnotationsAction.java:227-249 | the guard reads `OneToMany` from the one-to-many text |
| HibernateText.KeyColumnPairsRead | src/main/java/org/Roshan/HibernateXmlToAnnotationsAction.java:589-612 | in either map order, the key column carries the quoted column name and the length, each when given, and nothing else |
| HibernateNames.KeyJoinColumnAsRelation | src/main/java/org/Roshan/HibernateXmlToAnnotationsAction.java:617-637 | a key many-to-one gets the very join-column text a many-to-one gets |
| HibernateNames.KeyManyToOneTextsNames | src/main/java/org/Roshan/HibernateXmlToAnnotationsAction.java:617-637 | the guard reads `ManyToOne`, then `JoinColumn` exactly when the key names a column |
| HibernateNames.IdClassTextLiteral | src/main/java/org/Roshan/HibernateXmlToAnnotationsAction.java:642-657 | with a class named, the one text is exactly `@IdClass(X.class)` |
| HibernateNames.IdClassTextsNames | src/main/java/org/Roshan/HibernateXmlToAnnotationsAction.java:642-657 | the guard reads `IdClass` exactly when the composite id names its class |
| HibernateText.IdClassColumnText | src/main/java/org/Roshan/HibernateXmlToAnnotationsAction.java:662-683 | the quoted column name, or a bare `@Column` without one |
| HibernateNames.IdClassPropertyTextsNames | src/main/java/org/Roshan/HibernateXmlToAnnotationsAction.java:662-683 | the guard reads `Id`, then `Column` |
| HibernateNames.IdClassManyToOneTextsNames | src/main/java/org/Roshan/HibernateXmlToAnnotationsAction.java:688-711 | the guard reads `Id`, `ManyToOne`, then `JoinColumn` exactly when the key names a column |
| HibernateAction.ClassTagsToProcess | src/main/java/org/Roshan/HibernateXmlToAnnotationsAction.java:81-101 | without a selection, the root's `class` children; with one, every `class` tag below the root that lies inside the range, in document order |
| HibernateAction.EmbeddedClass | src/main/java/org/Roshan/HibernateXmlToAnnotationsAction.java:546-567 | the key class is one of the classes visible in all scope |
| HibernateAction.ProcessColumnDetails | src/main/java/org/Roshan/HibernateXmlToAnnotationsAction.java:281-307 | the new state is the old one with the guarded column add on the field |
| HibernateAction.AddColumnAnnotation | src/main/java/org/Roshan/HibernateXmlToAnnotationsAction.java:355-386 | the new state is the old one with the guarded standalone column add on the field |
| HibernateAction.AddEntityAnnotations | src/main/java/org/Roshan/HibernateXmlToAnnotationsAction.java:123-143 | the new state is the old one with `@Entity` and then the table added, guarded, to the class |
| HibernateAction.ProcessId | src/main/java/org/Roshan/HibernateXmlToAnnotationsAction.java:159-181 | the new state is the old one with the id texts added, guarded, to the named field |
| HibernateAction.ProcessProperty | src/main/java/org/Roshan/HibernateXmlToAnnotationsAction.java:183-198 | the same for the property texts |
| HibernateAction.ProcessManyToOne | src/main/java/org/Roshan/HibernateXmlToAnnotationsAction.java:200-225 | the same for the many-to-one texts |
| HibernateAction.ProcessOneToMany | src/main/java/org/Roshan/HibernateXmlToAnnotationsAction.java:227-249 | the same for `@OneToMany(...)` |
| HibernateAction.ProcessManyToMany | src/main/java/org/Roshan/HibernateXmlToAnnotationsAction.java:251-279 | the same for the many-to-many texts |
| HibernateAction.ProcessJoinTable | src/main/java/org/Roshan/HibernateXmlToAnnotationsAction.java:309-323 | the new state is the old one with the guarded `@JoinTable` on the field |
| HibernateAction.ProcessKeyProperty | src/main/java/org/Roshan/HibernateXmlToAnnotationsAction.java:589-612 | the guarded key column on the key class's field, when the field exists |
| HibernateAction.ProcessKeyManyToOne | src/main/java/org/Roshan/HibernateXmlToAnnotationsAction.java:617-637 | the guarded key many-to-one texts on the key class's field, when the field exists |
| HibernateAction.ProcessEmbeddableClass | src/main/java/org/Roshan/HibernateXmlToAnnotationsAction.java:573-584 | `@Embeddable` on the key class, then its key properties and key many-to-ones, in that order |
| HibernateAction.ProcessEmbeddedIdStrategy | src/main/java/org/Roshan/HibernateXmlToAnnotationsAction.java:546-567 | nothing without a named field; else `@EmbeddedId` on it and, when the key class is found, its embeddable annotations |
| HibernateAction.ProcessIdClassProperty | src/main/java/org/Roshan/HibernateXmlToAnnotationsAction.java:662-683 | `@Id` and the column on the owning class's field |
| HibernateAction.ProcessIdClassManyToOne | src/main/java/org/Roshan/HibernateXmlToAnnotationsAction.java:688-711 | `@Id`, `@ManyToOne` and the join column on the owning class's field |
| HibernateAction.ProcessIdClassStrategy | src/main/java/org/Roshan/HibernateXmlToAnnotationsAction.java:642-657 | `@IdClass` on the class, then the key properties, then the key many-to-ones |
| HibernateAction.ProcessCompositeId | src/main/java/org/Roshan/HibernateXmlToAnnotationsAction.java:526-541 | the embedded strategy when a `class` tag is nested, else the id-class strategy |
| HibernateAction.ProcessElement | src/main/java/org/Roshan/HibernateXmlToAnnotationsAction.java:146-157 | each element tag dispatched by name; unknown tags change nothing |
| HibernateAction.ProcessClassElements | src/main/java/org/Roshan/HibernateXmlToAnnotationsAction.java:146-157 | the element tags in document order |
| HibernateAction.ProcessHibernateClass | src/main/java/org/Roshan/HibernateXmlToAnnotationsAction.java:109-121 | nothing without a `name` or a project class; else the entity annotations, then the elements |
| HibernateAction.ProcessHibernateClasses | src/main/java/org/Roshan/HibernateXmlToAnnotationsAction.java:103-107 | each class tag in turn |
| HibernateAction.ConvertHibernate | src/main/java/org/Roshan/HibernateXmlToAnnotationsAction.java:69-79 | the new state is the guarded adds of the whole conversion on the old state; nothing happens without a root |
| HibernateProperties.ConvertIdempotent | src/main/java/org/Roshan/HibernateXmlToAnnotationsAction.java:404-474 | running the conversion a second time changes nothing, when the guard recognises what the host creates |
| HibernateProperties.ConvertIdempotentBySimpleName | src/main/java/org/Roshan/HibernateXmlToAnnotationsAction.java:462-474 | with the corrected guard, the conversion is idempotent even when imports resolve names |
| HibernateProperties.ConvertOnlyPrepends | src/main/java/org/Roshan/HibernateXmlToAnnotationsAction.java:404-431 | the conversion never removes or reorders an annotation; each list gains at most one annotation per write, in front |
| HibernateProperties.UnresolvedElementWritesNothing | src/main/java/org/Roshan/HibernateXmlToAnnotationsAction.java:146-157 | an unknown element tag asks for nothing |
| HibernateProperties.EmbeddedIdNeedsField | src/main/java/org/Roshan/HibernateXmlToAnnotationsAction.java:546-552 | the embedded strategy asks for nothing, not even `@Embeddable`, when the composite id names no field |
| HibernateProperties.CompositeStrategiesExclusive | src/main/java/org/Roshan/HibernateXmlToAnnotationsAction.java:526-541 | the embedded strategy writes only embedded-id kinds and the id-class strategy only id-class kinds |
| HibernateProperties.IdClassAsksForId | src/main/java/org/Roshan/HibernateXmlToAnnotationsAction.java:642-711 | the id-class strategy asks for `@Id` on every key field that resolves in the class |
| HibernateProperties.IdClassKeyFieldsGetId | src/main/java/org/Roshan/HibernateXmlToAnnotationsAction.java:642-711 | after the id-class strategy, every resolvable key field carries `@Id` (the created one or one the guard matched) |
| HibernateProperties.ClassesWritesAskForEntity | src/main/java/org/Roshan/HibernateXmlToAnnotationsAction.java:103-125 | every processed class tag that names a project class asks for `@Entity` on it |
| HibernateProperties.NestedKeyClassMadeEntity | src/main/java/org/Roshan/HibernateXmlToAnnotationsAction.java:81-101 | with a selection, a key class nested in a composite id is also processed as a class and asked for `@Entity` |
| SpringAction.Step | src/main/java/org/Roshan/SpringXmlToAnnotationsAction.java:129-139 | an add leaves the heap unchanged exactly when its target is unknown or its check finds one of the names; otherwise it prepends the created text to the target, or fails when the host cannot create it; the set of declarations never changes |
| SpringAction.RunAppend | src/main/java/org/Roshan/SpringXmlToAnnotationsAction.java:56-73 | running two op lists one after the other is running their concatenation, and a failure stops everything after it |
| SpringAction.FirstMatching | src/main/java/org/Roshan/SpringXmlToAnnotationsAction.java:193-214 | the first constructor with the given parameter count, absent exactly when there is none |
| SpringAction.TagsToProcess | src/main/java/org/Roshan/SpringXmlToAnnotationsAction.java:74-100 | without a selection, the root's children; with one, every `bean` tag inside the range, the root among them, in document order |
| SpringAction.BeanTags | src/main/java/org/Roshan/SpringXmlToAnnotationsAction.java:65-72 | the tags processed are exactly the `bean` tags of that scope, in order |
| SpringAction.PropertyOps | src/main/java/org/Roshan/SpringXmlToAnnotationsAction.java:157-191 | nothing unless the tag names a field of the class; then every add aims at that field: an `@Autowired` add checked against `Autowired` first exactly when there is a `ref`, and an unchecked `@Value("v")` add last when there is a value, and no other add |
| SpringAction.HasComponentAnnotation | src/main/java/org/Roshan/SpringXmlToAnnotationsAction.java:141-155 | true exactly when some annotation resolves to a stereotype |
| SpringAction.HasAutowiredAnnotation | src/main/java/org/Roshan/SpringXmlToAnnotationsAction.java:216-227 | true exactly when some annotation resolves to `Autowired` |
| SpringAction.Prepend | src/main/java/org/Roshan/SpringXmlToAnnotationsAction.java:129-139 | completes exactly when the host creates the text; the created annotation goes in front and nothing else changes |
| SpringAction.AddComponentAnnotation | src/main/java/org/Roshan/SpringXmlToAnnotationsAction.java:129-139 | the new state and completion are those of the checked `@Component` add |
| SpringAction.AddAutowired | src/main/java/org/Roshan/SpringXmlToAnnotationsAction.java:167-177 | the same for the checked `@Autowired` add |
| SpringAction.AddValue | src/main/java/org/Roshan/SpringXmlToAnnotationsAction.java:180-190 | the same for the unchecked `@Value` add |
| SpringAction.ProcessProperty | src/main/java/org/Roshan/SpringXmlToAnnotationsAction.java:157-191 | the same for the property's ops |
| SpringAction.ProcessSubTag | src/main/java/org/Roshan/SpringXmlToAnnotationsAction.java:115-119 | only `property` sub-tags do anything |
| SpringAction.ProcessProperties | src/main/java/org/Roshan/SpringXmlToAnnotationsAction.java:115-119 | the sub-tags in order, stopping at the first failure |
| SpringAction.PropertiesOpsStopped | src/main/java/org/Roshan/SpringXmlToAnnotationsAction.java:115-119 | once a prefix of the sub-tags fails, the rest do nothing |
| SpringAction.ProcessConstructorInjection | src/main/java/org/Roshan/SpringXmlToAnnotationsAction.java:193-214 | a checked `@Autowired` on the first constructor with the argument count, if any |
| SpringAction.ProcessBean | src/main/java/org/Roshan/SpringXmlToAnnotationsAction.java:101-127 | nothing for an unresolved class; else the component, the properties, then constructor injection when there are arguments |
| SpringAction.ProcessBeans | src/main/java/org/Roshan/SpringXmlToAnnotationsAction.java:65-72 | the beans in order, stopping at the first failure |
| SpringAction.BeansOpsStopped | src/main/java/org/Roshan/SpringXmlToAnnotationsAction.java:56-73 | once a prefix of the beans fails, the rest do nothing |
| SpringAction.ConvertSpring | src/main/java/org/Roshan/SpringXmlToAnnotationsAction.java:56-73 | the new state and completion are those of the whole conversion's ops on the old state |
| SpringProperties.RunUntargeted | src/main/java/org/Roshan/SpringXmlToAnnotationsAction.java:56-73 | a declaration no op is aimed at keeps its list, however the run ends |
| SpringProperties.CheckedAddIdempotent | src/main/java/org/Roshan/SpringXmlToAnnotationsAction.java:129-139 | a checked add run twice does what it did once, when the host resolves its text into the checked names |
| SpringProperties.ComponentRerun | src/main/java/org/Roshan/SpringXmlToAnnotationsAction.java:129-155 | adding `@Component` again changes nothing |
| SpringProperties.ComponentSkipped | src/main/java/org/Roshan/SpringXmlToAnnotationsAction.java:129-155 | a bean class already carrying a stereotype is left unchanged and the run goes on |
| SpringProperties.ComponentAdded | src/main/java/org/Roshan/SpringXmlToAnnotationsAction.java:129-155 | a bean class without a stereotype gets `@Component` in front of its annotations, or the run stops when it cannot be created |
| SpringProperties.CheckedAddLeavesMark | src/main/java/org/Roshan/SpringXmlToAnnotationsAction.java:129-139 | a completed checked add leaves an annotation it checks for on its target |
| SpringProperties.AutowiredSkipped | src/main/java/org/Roshan/SpringXmlToAnnotationsAction.java:167-177 | a declaration that already has `@Autowired` is left alone and the run completes |
| SpringProperties.ValueStep | src/main/java/org/Roshan/SpringXmlToAnnotationsAction.java:180-190 | a `@Value` add puts the created annotation in front, whatever is already there |
| SpringProperties.FieldRerun | src/main/java/org/Roshan/SpringXmlToAnnotationsAction.java:167-190 | a field's adds run again after a completed run: only the `@Value` is made again |
| SpringProperties.PropertyRerun | src/main/java/org/Roshan/SpringXmlToAnnotationsAction.java:157-191 | the same for a whole `property` tag |
| SpringProperties.PropertyEffect | src/main/java/org/Roshan/SpringXmlToAnnotationsAction.java:157-191 | a property naming a field, with its annotations creatable, completes and leaves the field with `@Value("v")` in front when there is a value, then `@Autowired` when there is a `ref` and the field had none, then its old annotations |
| SpringProperties.FieldEffect | src/main/java/org/Roshan/SpringXmlToAnnotationsAction.java:167-190 | the same for the adds on a resolved field, for every combination of `ref` and value |
| SpringProperties.ValueDuplicated | src/main/java/org/Roshan/SpringXmlToAnnotationsAction.java:180-190 | a value-only property run twice leaves two copies of the `@Value` |
| SpringProperties.ConstructorInjectionFirstOnly | src/main/java/org/Roshan/SpringXmlToAnnotationsAction.java:193-214 | only the first matching constructor can change, and nothing changes when it already has `@Autowired` |
| SpringProperties.ConstructorAutowired | src/main/java/org/Roshan/SpringXmlToAnnotationsAction.java:193-214 | the first constructor with as many parameters as there are constructor arguments, when not yet autowired, receives `@Autowired` in front of its annotations; the run stops when it cannot be created |
| SpringProperties.PropertiesTargetFields | src/main/java/org/Roshan/SpringXmlToAnnotationsAction.java:157-164 | every op of a bean's sub-tags is aimed at a field of its class |
| SpringProperties.NoArgsNoConstructorChange | src/main/java/org/Roshan/SpringXmlToAnnotationsAction.java:122-125 | without constructor arguments, only the class and its fields can change |
| SpringProperties.UnresolvedBeanNoEffect | src/main/java/org/Roshan/SpringXmlToAnnotationsAction.java:101-108 | a bean whose class is missing or unknown changes nothing and the run goes on |
| SpringProperties.RestControllerGetsComponent | src/main/java/org/Roshan/SpringXmlToAnnotationsAction.java:150 | as written: a class carrying only `org.springframework.web.bind.annotation.RestController` gets `@Component` added |
| SpringProperties.RestControllerRecognised | src/main/java/org/Roshan/SpringXmlToAnnotationsAction.java:141-155 | with the corrected list, the same class is recognised and left unchanged |

## Left out

- The actions' UI is not modelled: `actionPerformed`, `update`, the editor and the file-type checks. The model starts where the converters start, with the root tag, which may be absent.
- Console logging and `System.out.println` are not modelled. They have no effect on the annotations.
- `WriteCommandAction`, undo and threading are not modelled. Each converter is one sequential run.
- Spring's `addImportIfNeeded` (src/main/java/org/Roshan/SpringXmlToAnnotationsAction.java:229-252) is not modelled. It edits the Java file's import list, which the model does not represent. A file without an import list is skipped (line 233). Otherwise, for a missing import, `Objects.requireNonNull` wraps the class lookup (246-248), so a Spring annotation class not on the classpath throws after the annotation was added, ending the bean's write command and the rest of the run. The model assumes every Spring annotation class resolves.
- The IDE's element factory, import resolution and `findClass` are abstracted. The factory is the `create` parameter; the project's classes are a map from qualified name to declaration. A creation failure is the factory returning nothing.
- Null modifier lists are not modelled. Every modelled declaration has an annotation list, so the early return for a null modifier list in `addAnnotationIfNotPresent` cannot happen.
- Case folding is not faithful beyond ASCII. `ToUpper` and `ToLower` fold ASCII letters only; Java's `toUpperCase` and `toLowerCase` are locale-aware over all of Unicode.
- The iteration order of the `HashMap` built in `processKeyProperty` (src/main/java/org/Roshan/HibernateXmlToAnnotationsAction.java:589-612) is the host flag `nameFirst`. `HibernateText.KeyColumnPairsRead` holds for both orders.
- The text range of an XML tag is given in the tag itself. Both ranges are compared exactly as the source compares them.
- `Psi.Snap` is taken over a ghost set of declarations that each method may touch (the class, its fields, its constructors and any project class). Aliasing between declarations outside that set is not modelled.
- The Spring converter has no `try`/`catch`, so a creation failure aborts the bean's write command and, since it propagates, the loop over the remaining beans. The model stops the run at that point (`SpringAction.Run` reports `completed == false`) and keeps what was added before. Whether the IDE rolls back a failed write command is not modelled.
- HibernateAction.EmbeddedClass: a nested key `class` tag without a `name` yields no key class, and the conversion goes on. In the source, `findClass` receives null (src/main/java/org/Roshan/HibernateXmlToAnnotationsAction.java:558-562) and throws, which abandons the single write command (69-79), so the elements and classes after it stay unconverted. The model does not capture that abort; the same holds for HibernateAction.ProcessEmbeddedIdStrategy.
- The exception the Hibernate guard catches and reports is modelled as a creation failure that leaves the list alone. The report itself is not modelled.
- MergeGuard.AddMultipleAnnotations is modelled although nothing in the source calls it.

## Findings

| source | as written | input that shows it | evidently intended | confidence | as-written member | corrected member |
|---|---|---|---|---|---|---|
| src/main/java/org/Roshan/HibernateXmlToAnnotationsAction.java:462-474 | `hasAnnotation` compares an existing annotation's resolved qualified name with the name written in the new text (for example `Entity`). The guard in `addAnnotationIfNotPresent` (404-431) relies on it. | Run the converter twice on a class where the factory resolves `@Entity` to `javax.persistence.Entity`. The second run does not see the first `@Entity` and adds another. | An annotation that is already present is never added again. That happens when both names are compared by their simple names, and running the converter twice is then the same as running it once. | not executed | MergeGuard.ResolvedEntityDuplicated | HibernateProperties.ConvertIdempotentBySimpleName |
| src/main/java/org/Roshan/SpringXmlToAnnotationsAction.java:150 | The stereotype list names `org.springframework.stereotype.RestController`. Spring's `@RestController` is `org.springframework.web.bind.annotation.RestController`. | A bean class that carries only `@RestController`. It is not recognised as a component, so it gets an extra `@Component`. | A class carrying `@RestController` is already a component and is left alone. | not executed | SpringProperties.RestControllerGetsComponent | SpringProperties.RestControllerRecognised |
