/**
 * The bean-file converter: which `bean` tags it reads, which annotations it
 * asks for on a bean's class, fields and constructor, and the methods that
 * add them in place.
 *
 * Unlike the mapping-file converter, a failed annotation creation is not
 * caught here: it ends the whole run, leaving every annotation added so far
 * in place. So each method answers whether it completed, and is tied to a
 * list of operations (`...Ops`) whose run (`Run`) stops at the first failure.
 */
module SpringAction {
  import opened Wrappers
  import opened Seqs
  import opened Xml
  import opened Psi

  const ComponentName := "org.springframework.stereotype.Component"
  const ComponentText := "@org.springframework.stereotype.Component"
  const AutowiredName := "org.springframework.beans.factory.annotation.Autowired"
  const AutowiredText := "@org.springframework.beans.factory.annotation.Autowired"

  /** `@Value("v")` for the value `v`, written as the converter writes it. */
  function ValueText(v: string): string {
    "@org.springframework.beans.factory.annotation.Value(\"" + v + "\")"
  }

  /**
   * The stereotypes `hasComponentAnnotation` looks for, as written: the last
   * one names a class that does not exist, since `@RestController` lives in
   * `org.springframework.web.bind.annotation`.
   */
  const WrittenStereotypes: set<string> := {
    "org.springframework.stereotype.Component",
    "org.springframework.stereotype.Service",
    "org.springframework.stereotype.Repository",
    "org.springframework.stereotype.Controller",
    "org.springframework.stereotype.RestController"
  }

  /** The same list with `@RestController`'s real qualified name. */
  const CorrectedStereotypes: set<string> := {
    "org.springframework.stereotype.Component",
    "org.springframework.stereotype.Service",
    "org.springframework.stereotype.Repository",
    "org.springframework.stereotype.Controller",
    "org.springframework.web.bind.annotation.RestController"
  }

  /**
   * What a run works against: the project's classes by qualified name, the
   * host's annotation factory, and the stereotype names that keep
   * `@Component` off a class.
   */
  datatype Env = Env(project: map<string, Decl>, create: Creator, stereotypes: set<string>)

  /** `u` covers every project class, with its fields and constructors. */
  ghost predicate CoversEnv(u: set<Decl>, env: Env) {
    forall n :: n in env.project ==> Covers(u, env.project[n])
  }

  /** Some annotation in the list resolves to one of `names`. */
  predicate HasAnyOf(annos: seq<Annotation>, names: set<string>) {
    exists i | 0 <= i < |annos| :: annos[i].qualifiedName.Some? && annos[i].qualifiedName.value in names
  }

  /** An add is either skipped when a named annotation is present, or made whatever is there. */
  datatype Check = UnlessAnyOf(names: set<string>) | Unchecked

  /** One add: create the annotation from `text` and put it first on `target`'s list, unless `check` skips it. */
  datatype Op = Op(target: Decl, text: string, check: Check)

  /** The annotation lists after a run, and whether the run got to its end. */
  datatype Outcome = Outcome(heap: Heap, completed: bool)

  /** One add on the lists: the new lists, or nothing when the host fails to create the annotation. */
  function Step(create: Creator, h: Heap, op: Op): (r: Option<Heap>)
    ensures r.None? <==> op.target in h && !(op.check.UnlessAnyOf? && HasAnyOf(h[op.target], op.check.names)) && create(op.text).None?
    ensures r.Some? ==> r.value.Keys == h.Keys
    ensures r == Some(h) <==> op.target !in h || (op.check.UnlessAnyOf? && HasAnyOf(h[op.target], op.check.names))
    ensures r.Some? ==> r.value == h || (op.target in h && create(op.text).Some? && r.value == h[op.target := [create(op.text).value] + h[op.target]])
  {
    if op.target !in h then Some(h)
    else if op.check.UnlessAnyOf? && HasAnyOf(h[op.target], op.check.names) then Some(h)
    else match create(op.text)
      case None => None
      case Some(a) =>
        assert |([a] + h[op.target])| != |h[op.target]|;
        Some(h[op.target := [a] + h[op.target]])
  }

  /** A list of adds, first to last, stopping at the first failure. */
  function Run(create: Creator, h: Heap, ops: seq<Op>): (r: Outcome)
    ensures r.heap.Keys == h.Keys
    decreases |ops|
  {
    if ops == [] then Outcome(h, true)
    else match Step(create, h, ops[0])
      case None => Outcome(h, false)
      case Some(h1) => Run(create, h1, ops[1..])
  }

  /** Running two lists is running the first, then the second when the first completed. */
  lemma {:induction false} RunAppend(create: Creator, h: Heap, a: seq<Op>, b: seq<Op>)
    ensures Run(create, h, a + b)
         == if Run(create, h, a).completed then Run(create, Run(create, h, a).heap, b) else Run(create, h, a)
    decreases |a|
  {
    if a == [] {
      assert a + b == b;
    } else {
      assert (a + b)[0] == a[0];
      assert (a + b)[1..] == a[1..] + b;
      match Step(create, h, a[0])
      case None =>
      case Some(h1) => RunAppend(create, h1, a[1..], b);
    }
  }

  /** A run of one add completes exactly when its step does, with the step's heap. */
  lemma RunSingle(create: Creator, h: Heap, op: Op)
    ensures Run(create, h, [op]).completed <==> Step(create, h, op).Some?
    ensures Step(create, h, op).Some? ==> Run(create, h, [op]).heap == Step(create, h, op).value
  {
    assert [op][1..] == [];
  }

  // What each part of the converter asks for.

  /** `addComponentAnnotation`: `@Component`, unless a stereotype is already there. */
  function ComponentOps(env: Env, c: Decl): seq<Op> {
    [Op(c, ComponentText, UnlessAnyOf(env.stereotypes))]
  }

  /** `@Autowired` on `d`, unless it is already there. */
  function AutowiredOps(d: Decl): seq<Op> {
    [Op(d, AutowiredText, UnlessAnyOf({AutowiredName}))]
  }

  /** `@Value("v")` on `f`, whatever is there. */
  function ValueOps(f: Decl, v: string): seq<Op> {
    [Op(f, ValueText(v), Unchecked)]
  }

  /** The adds on a property's field: `@Autowired` when it has a `ref`, then `@Value` when it has a `value`. */
  function FieldOps(f: Decl, ref: bool, value: Option<string>): seq<Op> {
    (if ref then AutowiredOps(f) else []) + (if value.Some? then ValueOps(f, value.value) else [])
  }

  /** `processProperty`: nothing unless the tag names a field of the class; then the field's adds. */
  function PropertyOps(c: Decl, t: Tag): (r: seq<Op>)
    ensures FindField(c, Attr(t, "name")).None? ==> r == []
    ensures |r| <= 2
    ensures forall i :: 0 <= i < |r| ==> FindField(c, Attr(t, "name")) == Some(r[i].target)
    ensures FindField(c, Attr(t, "name")).Some? ==>
      var f := FindField(c, Attr(t, "name")).value;
      |r| == (if "ref" in t.attrs then 1 else 0) + (if "value" in t.attrs then 1 else 0)
      && ("ref" in t.attrs <==> |r| > 0 && r[0] == Op(f, AutowiredText, UnlessAnyOf({AutowiredName})))
      && ("value" in t.attrs ==> r[|r| - 1] == Op(f, ValueText(t.attrs["value"]), Unchecked))
  {
    match FindField(c, Attr(t, "name"))
    case None => []
    case Some(f) => FieldOps(f, "ref" in t.attrs, Attr(t, "value"))
  }

  /** One sub-tag of a bean: a `property` tag's adds, nothing for any other tag. */
  function SubTagOps(c: Decl, t: Tag): seq<Op> {
    if t.name == "property" then PropertyOps(c, t) else []
  }

  /** The sub-tags of a bean in order. */
  function PropertiesOps(c: Decl, ts: seq<Tag>): seq<Op>
    decreases |ts|
  {
    if ts == [] then [] else PropertiesOps(c, ts[..|ts| - 1]) + SubTagOps(c, ts[|ts| - 1])
  }

  /** The first constructor, in declaration order, with `n` parameters. */
  function FirstMatching(cs: seq<Decl>, n: nat): (r: Option<nat>)
    ensures r.None? <==> forall j :: 0 <= j < |cs| ==> cs[j].parameterCount != n
    ensures r.Some? ==> r.value < |cs| && cs[r.value].parameterCount == n
    ensures r.Some? ==> forall j :: 0 <= j < r.value ==> cs[j].parameterCount != n
    decreases |cs|
  {
    if cs == [] then None
    else if cs[0].parameterCount == n then Some(0)
    else
      var rest := FirstMatching(cs[1..], n);
      if rest.None? then None else Some(rest.value + 1)
  }

  /** `processConstructorInjection`: `@Autowired` on the first constructor taking `n` arguments, unless already there. */
  function ConstructorOps(c: Decl, n: nat): seq<Op> {
    match FirstMatching(c.constructors, n)
    case None => []
    case Some(i) => AutowiredOps(c.constructors[i])
  }

  /** The number of `constructor-arg` sub-tags of a bean. */
  function ArgCount(t: Tag): nat {
    |SubTagsNamed(t, "constructor-arg")|
  }

  /**
   * `processBean`: nothing unless the `class` attribute names a project
   * class; then its component annotation, its properties, and constructor
   * injection when there is at least one constructor argument.
   */
  function BeanOps(env: Env, t: Tag): seq<Op> {
    match FindClass(env.project, Attr(t, "class"))
    case None => []
    case Some(c) =>
      ComponentOps(env, c) + PropertiesOps(c, t.children)
      + (if ArgCount(t) > 0 then ConstructorOps(c, ArgCount(t)) else [])
  }

  function BeansOps(env: Env, ts: seq<Tag>): seq<Op>
    decreases |ts|
  {
    if ts == [] then [] else BeansOps(env, ts[..|ts| - 1]) + BeanOps(env, ts[|ts| - 1])
  }

  /**
   * `getTagsToProcess`: every sub-tag of the root without a selection;
   * with one, every `bean` tag of the file lying inside it, the root
   * among them, in document order.
   */
  function TagsToProcess(root: Tag, sel: Selection): (r: seq<Tag>)
    ensures sel.NoSelection? ==> r == root.children
    ensures sel.Range? ==> forall t :: t in r <==> t in [root] + Descendants(root) && Within(t, sel.start, sel.end) && t.name == "bean"
    ensures sel.Range? ==> IsSubsequence(r, [root] + Descendants(root))
  {
    match sel
    case NoSelection => root.children
    case Range(start, end) =>
      var p := (t: Tag) => Within(t, start, end) && t.name == "bean";
      FilterIsSubsequence([root] + Descendants(root), p);
      Filter([root] + Descendants(root), p)
  }

  /** The tags `convertSpringXmlToAnnotations` processes: those of `TagsToProcess` named `bean`. */
  function BeanTags(root: Tag, sel: Selection): (r: seq<Tag>)
    ensures sel.NoSelection? ==> forall t :: t in r <==> t in root.children && t.name == "bean"
    ensures sel.Range? ==> forall t :: t in r <==> t in [root] + Descendants(root) && Within(t, sel.start, sel.end) && t.name == "bean"
    ensures IsSubsequence(r, TagsToProcess(root, sel))
  {
    var p := (t: Tag) => t.name == "bean";
    FilterIsSubsequence(TagsToProcess(root, sel), p);
    Filter(TagsToProcess(root, sel), p)
  }

  /** A run on a file: nothing unless its root tag is `beans`. */
  function ConvertOps(env: Env, root: Option<Tag>, sel: Selection): seq<Op> {
    if root.None? || root.value.name != "beans" then []
    else BeansOps(env, BeanTags(root.value, sel))
  }

  /*
   * The methods. Each one changes the annotation lists of the declarations
   * in the ghost set `u` and no others; it answers whether it completed, and
   * leaves the lists as the run of its `...Ops` list would.
   */

  /** `hasComponentAnnotation`. */
  method HasComponentAnnotation(env: Env, c: Decl) returns (found: bool)
    ensures found == HasAnyOf(c.annotations, env.stereotypes)
  {
    var annotations := c.annotations;
    for i := 0 to |annotations|
      invariant forall j :: 0 <= j < i ==> !(annotations[j].qualifiedName.Some? && annotations[j].qualifiedName.value in env.stereotypes)
    {
      var qualifiedName := annotations[i].qualifiedName;
      if qualifiedName.Some? && qualifiedName.value in env.stereotypes {
        return true;
      }
    }
    return false;
  }

  /** `hasAutowiredAnnotation`. */
  method HasAutowiredAnnotation(d: Decl) returns (found: bool)
    ensures found == HasAnyOf(d.annotations, {AutowiredName})
  {
    var annotations := d.annotations;
    for i := 0 to |annotations|
      invariant forall j :: 0 <= j < i ==> annotations[j].qualifiedName != Some(AutowiredName)
    {
      if annotations[i].qualifiedName == Some(AutowiredName) {
        return true;
      }
    }
    return false;
  }

  /** Create the annotation for `text` and put it first on `d`'s list; false when the host fails to create it. */
  method Prepend(env: Env, d: Decl, text: string, ghost u: set<Decl>) returns (completed: bool)
    requires d in u
    modifies d
    ensures completed <==> env.create(text).Some?
    ensures Snap(u) == if completed then old(Snap(u))[d := [env.create(text).value] + old(d.annotations)] else old(Snap(u))
  {
    var created := env.create(text);
    if created.None? {
      return false;
    }
    d.annotations := [created.value] + d.annotations;
    return true;
  }

  /** `addComponentAnnotation`. */
  method AddComponentAnnotation(env: Env, c: Decl, ghost u: set<Decl>) returns (completed: bool)
    requires c in u
    modifies c
    ensures Outcome(Snap(u), completed) == Run(env.create, old(Snap(u)), ComponentOps(env, c))
  {
    var found := HasComponentAnnotation(env, c);
    if found {
      return true;
    }
    completed := Prepend(env, c, ComponentText, u);
  }

  /** The `@Autowired` step shared by `processProperty` and `processConstructorInjection`. */
  method AddAutowired(env: Env, d: Decl, ghost u: set<Decl>) returns (completed: bool)
    requires d in u
    modifies d
    ensures Outcome(Snap(u), completed) == Run(env.create, old(Snap(u)), AutowiredOps(d))
  {
    var found := HasAutowiredAnnotation(d);
    if found {
      return true;
    }
    completed := Prepend(env, d, AutowiredText, u);
  }

  /** The `@Value` step of `processProperty`. */
  method AddValue(env: Env, f: Decl, v: string, ghost u: set<Decl>) returns (completed: bool)
    requires f in u
    modifies f
    ensures Outcome(Snap(u), completed) == Run(env.create, old(Snap(u)), ValueOps(f, v))
  {
    completed := Prepend(env, f, ValueText(v), u);
  }

  /** `processProperty`. */
  method ProcessProperty(env: Env, c: Decl, t: Tag, ghost u: set<Decl>) returns (completed: bool)
    requires Covers(u, c)
    modifies u
    ensures Outcome(Snap(u), completed) == Run(env.create, old(Snap(u)), PropertyOps(c, t))
  {
    var name := Attr(t, "name");
    if name.None? || name.value !in c.fields {
      return true;
    }
    var f := c.fields[name.value];
    ghost var h0 := Snap(u);
    ghost var refOps := if "ref" in t.attrs then AutowiredOps(f) else [];
    ghost var valueOps := if "value" in t.attrs then ValueOps(f, t.attrs["value"]) else [];
    assert PropertyOps(c, t) == refOps + valueOps;
    RunAppend(env.create, h0, refOps, valueOps);
    if Attr(t, "ref").Some? {
      completed := AddAutowired(env, f, u);
      if !completed {
        return;
      }
    }
    var value := Attr(t, "value");
    if value.Some? {
      completed := AddValue(env, f, value.value, u);
    } else {
      completed := true;
    }
  }

  /** The body of `processBean`'s loop over the bean's sub-tags. */
  method ProcessSubTag(env: Env, c: Decl, t: Tag, ghost u: set<Decl>) returns (completed: bool)
    requires Covers(u, c)
    modifies u
    ensures Outcome(Snap(u), completed) == Run(env.create, old(Snap(u)), SubTagOps(c, t))
  {
    if t.name == "property" {
      completed := ProcessProperty(env, c, t, u);
    } else {
      completed := true;
    }
  }

  /** The loop of `processBean` over the bean's sub-tags; a failure ends the run. */
  method ProcessProperties(env: Env, c: Decl, ts: seq<Tag>, ghost u: set<Decl>) returns (completed: bool)
    requires Covers(u, c)
    modifies u
    ensures Outcome(Snap(u), completed) == Run(env.create, old(Snap(u)), PropertiesOps(c, ts))
  {
    for i := 0 to |ts|
      invariant Outcome(Snap(u), true) == Run(env.create, old(Snap(u)), PropertiesOps(c, ts[..i]))
    {
      assert ts[..i + 1][..i] == ts[..i];
      RunAppend(env.create, old(Snap(u)), PropertiesOps(c, ts[..i]), SubTagOps(c, ts[i]));
      completed := ProcessSubTag(env, c, ts[i], u);
      if !completed {
        PropertiesOpsStopped(env.create, c, ts, i + 1, old(Snap(u)));
        return;
      }
    }
    assert ts[..|ts|] == ts;
    return true;
  }

  /** Once a prefix of the sub-tags fails, the rest of them never run. */
  lemma {:induction false} PropertiesOpsStopped(create: Creator, c: Decl, ts: seq<Tag>, i: nat, h: Heap)
    requires i <= |ts| && !Run(create, h, PropertiesOps(c, ts[..i])).completed
    ensures Run(create, h, PropertiesOps(c, ts)) == Run(create, h, PropertiesOps(c, ts[..i]))
    decreases |ts| - i
  {
    if i < |ts| {
      assert ts[..i + 1][..i] == ts[..i];
      RunAppend(create, h, PropertiesOps(c, ts[..i]), SubTagOps(c, ts[i]));
      PropertiesOpsStopped(create, c, ts, i + 1, h);
    } else {
      assert ts[..i] == ts;
    }
  }

  /** `processConstructorInjection` with `n` constructor arguments: only the first constructor taking `n` is looked at. */
  method ProcessConstructorInjection(env: Env, c: Decl, n: nat, ghost u: set<Decl>) returns (completed: bool)
    requires Covers(u, c)
    modifies u
    ensures Outcome(Snap(u), completed) == Run(env.create, old(Snap(u)), ConstructorOps(c, n))
  {
    var constructors := c.constructors;
    for i := 0 to |constructors|
      invariant forall j :: 0 <= j < i ==> constructors[j].parameterCount != n
    {
      if constructors[i].parameterCount == n {
        completed := AddAutowired(env, constructors[i], u);
        return;
      }
    }
    return true;
  }

  /** `processBean`. */
  method ProcessBean(env: Env, t: Tag, ghost u: set<Decl>) returns (completed: bool)
    requires CoversEnv(u, env)
    modifies u
    ensures Outcome(Snap(u), completed) == Run(env.create, old(Snap(u)), BeanOps(env, t))
  {
    var cls := FindClass(env.project, Attr(t, "class"));
    if cls.None? {
      return true;
    }
    var c := cls.value;
    ghost var h0 := Snap(u);
    ghost var injection := if ArgCount(t) > 0 then ConstructorOps(c, ArgCount(t)) else [];
    RunAppend(env.create, h0, ComponentOps(env, c) + PropertiesOps(c, t.children), injection);
    RunAppend(env.create, h0, ComponentOps(env, c), PropertiesOps(c, t.children));
    completed := AddComponentAnnotation(env, c, u);
    if !completed {
      return;
    }
    completed := ProcessProperties(env, c, t.children, u);
    if !completed {
      return;
    }
    var constructorArgs := SubTagsNamed(t, "constructor-arg");
    if |constructorArgs| > 0 {
      completed := ProcessConstructorInjection(env, c, |constructorArgs|, u);
    }
  }

  /** The `forEach` of `convertSpringXmlToAnnotations` over the bean tags; a failure ends the run. */
  method ProcessBeans(env: Env, tags: seq<Tag>, ghost u: set<Decl>) returns (completed: bool)
    requires CoversEnv(u, env)
    modifies u
    ensures Outcome(Snap(u), completed) == Run(env.create, old(Snap(u)), BeansOps(env, tags))
  {
    for i := 0 to |tags|
      invariant Outcome(Snap(u), true) == Run(env.create, old(Snap(u)), BeansOps(env, tags[..i]))
    {
      assert tags[..i + 1][..i] == tags[..i];
      RunAppend(env.create, old(Snap(u)), BeansOps(env, tags[..i]), BeanOps(env, tags[i]));
      completed := ProcessBean(env, tags[i], u);
      if !completed {
        BeansOpsStopped(env, tags, i + 1, old(Snap(u)));
        return;
      }
    }
    assert tags[..|tags|] == tags;
    return true;
  }

  /** Once a prefix of the beans fails, the rest of them never run. */
  lemma {:induction false} BeansOpsStopped(env: Env, tags: seq<Tag>, i: nat, h: Heap)
    requires i <= |tags| && !Run(env.create, h, BeansOps(env, tags[..i])).completed
    ensures Run(env.create, h, BeansOps(env, tags)) == Run(env.create, h, BeansOps(env, tags[..i]))
    decreases |tags| - i
  {
    if i < |tags| {
      assert tags[..i + 1][..i] == tags[..i];
      RunAppend(env.create, h, BeansOps(env, tags[..i]), BeanOps(env, tags[i]));
      BeansOpsStopped(env, tags, i + 1, h);
    } else {
      assert tags[..i] == tags;
    }
  }

  /**
   * The action on a file whose root tag is `root` (nothing when the file has
   * none): nothing unless the root is `beans`; otherwise every bean tag to
   * process, in order, until one fails.
   */
  method ConvertSpring(env: Env, root: Option<Tag>, sel: Selection, ghost u: set<Decl>) returns (completed: bool)
    requires CoversEnv(u, env)
    modifies u
    ensures Outcome(Snap(u), completed) == Run(env.create, old(Snap(u)), ConvertOps(env, root, sel))
  {
    if root.None? || root.value.name != "beans" {
      return true;
    }
    var beans := BeanTags(root.value, sel);
    completed := ProcessBeans(env, beans, u);
  }
}
