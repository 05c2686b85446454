/**
 * What the bean-file converter's operation lists, and so its methods, do on
 * a second run and on the parts of a bean they do not name: `@Component` and
 * `@Autowired` are never added twice, `@Value` is, constructor injection
 * touches at most the first matching constructor and none without
 * constructor arguments, and a bean without a resolvable class changes
 * nothing. It also pins down the misspelt `@RestController` stereotype.
 */
module SpringProperties {
  import opened Wrappers
  import opened Xml
  import opened Psi
  import opened SpringAction

  /** A declaration no add is aimed at keeps its annotation list, however the run ends. */
  lemma {:induction false} RunUntargeted(create: Creator, h: Heap, ops: seq<Op>, d: Decl)
    requires d in h
    requires forall op :: op in ops ==> op.target != d
    ensures Run(create, h, ops).heap[d] == h[d]
    decreases |ops|
  {
    if ops != [] {
      match Step(create, h, ops[0])
      case None =>
      case Some(h1) =>
        assert forall op :: op in ops[1..] ==> op in ops;
        RunUntargeted(create, h1, ops[1..], d);
    }
  }

  /** The host resolves what it creates from `text` to one of `names`. */
  ghost predicate ResolvesInto(create: Creator, text: string, names: set<string>) {
    create(text).Some? ==> create(text).value.qualifiedName.Some? && create(text).value.qualifiedName.value in names
  }

  /** A checked add, run twice, does what it did once: its own annotation stops the second. */
  lemma CheckedAddIdempotent(create: Creator, h: Heap, op: Op)
    requires op.check.UnlessAnyOf? && ResolvesInto(create, op.text, op.check.names)
    ensures Run(create, Run(create, h, [op]).heap, [op]) == Run(create, h, [op])
  {
    RunSingle(create, h, op);
    var once := Run(create, h, [op]);
    RunSingle(create, once.heap, op);
    if op.target in h && !HasAnyOf(h[op.target], op.check.names) && create(op.text).Some? {
      assert once.heap[op.target][0] == create(op.text).value;
    }
  }

  /**
   * Running `addComponentAnnotation` again changes nothing when the host
   * resolves the `@Component` it creates to a stereotype it checks for.
   */
  lemma ComponentRerun(env: Env, h: Heap, c: Decl)
    requires ResolvesInto(env.create, ComponentText, env.stereotypes)
    ensures Run(env.create, Run(env.create, h, ComponentOps(env, c)).heap, ComponentOps(env, c)) == Run(env.create, h, ComponentOps(env, c))
  {
    CheckedAddIdempotent(env.create, h, ComponentOps(env, c)[0]);
  }

  /** A checked add that did not fail leaves an annotation it checks for on its target. */
  lemma StepLeavesMark(create: Creator, h: Heap, op: Op)
    requires op.target in h && op.check.UnlessAnyOf? && ResolvesInto(create, op.text, op.check.names)
    requires Step(create, h, op).Some?
    ensures HasAnyOf(Step(create, h, op).value[op.target], op.check.names)
  {
    if !HasAnyOf(h[op.target], op.check.names) {
      var a := create(op.text).value;
      assert Step(create, h, op) == Some(h[op.target := [a] + h[op.target]]);
      HasAnyOfFront(a, h[op.target], op.check.names);
    }
  }

  /** A completed checked add leaves an annotation it checks for on its target. */
  lemma CheckedAddLeavesMark(create: Creator, h: Heap, op: Op)
    requires op.target in h && op.check.UnlessAnyOf? && ResolvesInto(create, op.text, op.check.names)
    requires Run(create, h, [op]).completed
    ensures HasAnyOf(Run(create, h, [op]).heap[op.target], op.check.names)
  {
    RunSingle(create, h, op);
    StepLeavesMark(create, h, op);
  }

  /** An annotation in front that resolves to one of `names` is a match. */
  lemma HasAnyOfFront(a: Annotation, annos: seq<Annotation>, names: set<string>)
    requires a.qualifiedName.Some? && a.qualifiedName.value in names
    ensures HasAnyOf([a] + annos, names)
  {
    assert ([a] + annos)[0] == a;
  }

  /** An `@Autowired` step on a declaration that has one completes and changes nothing. */
  lemma AutowiredSkipped(create: Creator, h: Heap, d: Decl)
    requires d in h && HasAnyOf(h[d], {AutowiredName})
    ensures Run(create, h, AutowiredOps(d)) == Outcome(h, true)
  {
    RunSingle(create, h, AutowiredOps(d)[0]);
  }

  /** A class that already carries a stereotype is left alone, and the run goes on. */
  lemma ComponentSkipped(env: Env, h: Heap, c: Decl)
    requires c in h && HasAnyOf(h[c], env.stereotypes)
    ensures Run(env.create, h, ComponentOps(env, c)) == Outcome(h, true)
  {
    RunSingle(env.create, h, ComponentOps(env, c)[0]);
  }

  /** A class without a stereotype gets the created `@Component` in front, or the run stops when it cannot be created. */
  lemma ComponentAdded(env: Env, h: Heap, c: Decl)
    requires c in h && !HasAnyOf(h[c], env.stereotypes)
    ensures env.create(ComponentText).Some? ==>
      Run(env.create, h, ComponentOps(env, c)) == Outcome(h[c := [env.create(ComponentText).value] + h[c]], true)
    ensures env.create(ComponentText).None? ==> Run(env.create, h, ComponentOps(env, c)) == Outcome(h, false)
  {
    RunSingle(env.create, h, ComponentOps(env, c)[0]);
  }

  /** A `@Value` step puts the created annotation in front, whatever is there. */
  lemma ValueStep(create: Creator, h: Heap, f: Decl, v: string)
    requires f in h && create(ValueText(v)).Some?
    ensures Run(create, h, ValueOps(f, v)) == Outcome(h[f := [create(ValueText(v)).value] + h[f]], true)
  {
    RunSingle(create, h, ValueOps(f, v)[0]);
  }

  /** Putting an annotation in front keeps any match further down. */
  lemma HasAnyOfInLonger(a: Annotation, annos: seq<Annotation>, names: set<string>)
    requires HasAnyOf(annos, names)
    ensures HasAnyOf([a] + annos, names)
  {
    var i :| 0 <= i < |annos| && annos[i].qualifiedName.Some? && annos[i].qualifiedName.value in names;
    assert ([a] + annos)[i + 1] == annos[i];
  }

  /** The field's adds run again after a first run that completed: only the `@Value` is made again. */
  lemma FieldRerun(create: Creator, h: Heap, f: Decl, ref: bool, value: Option<string>, ops: seq<Op>)
    requires ops == FieldOps(f, ref, value)
    requires f in h && ResolvesInto(create, AutowiredText, {AutowiredName})
    requires value.Some? ==> create(ValueText(value.value)).Some?
    requires Run(create, h, ops).completed
    ensures var once := Run(create, h, ops);
            var twice := Run(create, once.heap, ops);
            twice.completed
            && twice.heap[f] == (if value.Some? then [create(ValueText(value.value)).value] else []) + once.heap[f]
  {
    if !ref && value.None? {
      assert ops == [];
    } else if !ref {
      assert ops == ValueOps(f, value.value);
      var once := Run(create, h, ops);
      ValueStep(create, once.heap, f, value.value);
    } else if value.None? {
      assert ops == AutowiredOps(f);
      CheckedAddLeavesMark(create, h, AutowiredOps(f)[0]);
      AutowiredSkipped(create, Run(create, h, ops).heap, f);
    } else {
      RefValueRerun(create, h, f, value.value);
    }
  }

  /** Both adds, run again: the `@Autowired` is skipped and one more `@Value` goes in front. */
  lemma RefValueRerun(create: Creator, h: Heap, f: Decl, v: string)
    requires f in h && ResolvesInto(create, AutowiredText, {AutowiredName})
    requires create(ValueText(v)).Some?
    requires Run(create, h, AutowiredOps(f) + ValueOps(f, v)).completed
    ensures var once := Run(create, h, AutowiredOps(f) + ValueOps(f, v));
            var twice := Run(create, once.heap, AutowiredOps(f) + ValueOps(f, v));
            twice.completed && twice.heap[f] == [create(ValueText(v)).value] + once.heap[f]
  {
    var a := create(ValueText(v)).value;
    RunAppend(create, h, AutowiredOps(f), ValueOps(f, v));
    var afterRef := Run(create, h, AutowiredOps(f));
    CheckedAddLeavesMark(create, h, AutowiredOps(f)[0]);
    ValueStep(create, afterRef.heap, f, v);
    var once := Run(create, h, AutowiredOps(f) + ValueOps(f, v));
    assert once.heap == afterRef.heap[f := [a] + afterRef.heap[f]];
    HasAnyOfInLonger(a, afterRef.heap[f], {AutowiredName});
    RunAppend(create, once.heap, AutowiredOps(f), ValueOps(f, v));
    AutowiredSkipped(create, once.heap, f);
    ValueStep(create, once.heap, f, v);
  }

  /**
   * A property tag processed again, after a first run that completed: no
   * second `@Autowired` (when the host resolves it to its qualified name),
   * but one more `@Value` in front whenever the tag has a value.
   */
  lemma PropertyRerun(env: Env, h: Heap, c: Decl, t: Tag)
    requires "name" in t.attrs && t.attrs["name"] in c.fields && c.fields[t.attrs["name"]] in h
    requires ResolvesInto(env.create, AutowiredText, {AutowiredName})
    requires "value" in t.attrs ==> env.create(ValueText(t.attrs["value"])).Some?
    requires Run(env.create, h, PropertyOps(c, t)).completed
    ensures var f := c.fields[t.attrs["name"]];
            var once := Run(env.create, h, PropertyOps(c, t));
            var twice := Run(env.create, once.heap, PropertyOps(c, t));
            twice.completed
            && twice.heap[f] == (if "value" in t.attrs then [env.create(ValueText(t.attrs["value"])).value] else []) + once.heap[f]
  {
    assert PropertyOps(c, t) == FieldOps(c.fields[t.attrs["name"]], "ref" in t.attrs, Attr(t, "value"));
    FieldRerun(env.create, h, c.fields[t.attrs["name"]], "ref" in t.attrs, Attr(t, "value"), PropertyOps(c, t));
  }

  /** `@Value` is not guarded: with a resolvable field and a value only, each run puts one more copy in front. */
  lemma ValueDuplicated(env: Env, h: Heap, c: Decl, t: Tag)
    requires "name" in t.attrs && t.attrs["name"] in c.fields && c.fields[t.attrs["name"]] in h
    requires "value" in t.attrs && "ref" !in t.attrs
    requires env.create(ValueText(t.attrs["value"])).Some?
    ensures var f := c.fields[t.attrs["name"]];
            var a := env.create(ValueText(t.attrs["value"])).value;
            var once := Run(env.create, h, PropertyOps(c, t));
            var twice := Run(env.create, once.heap, PropertyOps(c, t));
            once.completed && twice.completed && twice.heap[f] == [a, a] + h[f]
  {
    var f := c.fields[t.attrs["name"]];
    var v := t.attrs["value"];
    var a := env.create(ValueText(v)).value;
    assert PropertyOps(c, t) == [] + ValueOps(f, v);
    ValueStep(env.create, h, f, v);
    var once := Run(env.create, h, PropertyOps(c, t));
    ValueStep(env.create, once.heap, f, v);
    assert [a] + ([a] + h[f]) == [a, a] + h[f];
  }

  /**
   * The adds on a resolvable field, with every needed annotation creatable:
   * the run completes, `@Autowired` goes on when there is a `ref` and none is
   * there yet, and `@Value` goes in front of it when there is a value.
   */
  lemma FieldEffect(create: Creator, h: Heap, f: Decl, ref: bool, value: Option<string>)
    requires f in h
    requires ref ==> create(AutowiredText).Some?
    requires value.Some? ==> create(ValueText(value.value)).Some?
    ensures Run(create, h, FieldOps(f, ref, value)) == Outcome(h[f :=
      (if value.Some? then [create(ValueText(value.value)).value] else [])
      + (if ref && !HasAnyOf(h[f], {AutowiredName}) then [create(AutowiredText).value] else [])
      + h[f]], true)
  {
    var front := if ref && !HasAnyOf(h[f], {AutowiredName}) then [create(AutowiredText).value] else [];
    var back := if value.Some? then [create(ValueText(value.value)).value] else [];
    var refOps := if ref then AutowiredOps(f) else [];
    var valueOps := if value.Some? then ValueOps(f, value.value) else [];
    RunAppend(create, h, refOps, valueOps);
    RefPart(create, h, f, ref);
    var h1 := h[f := front + h[f]];
    ValuePart(create, h1, f, value);
    assert back + (front + h[f]) == back + front + h[f];
    assert h1[f := back + h1[f]] == h[f := back + front + h[f]];
  }

  lemma RefPart(create: Creator, h: Heap, f: Decl, ref: bool)
    requires f in h && (ref ==> create(AutowiredText).Some?)
    ensures Run(create, h, if ref then AutowiredOps(f) else [])
      == Outcome(h[f := (if ref && !HasAnyOf(h[f], {AutowiredName}) then [create(AutowiredText).value] else []) + h[f]], true)
  {
    if ref {
      RunSingle(create, h, AutowiredOps(f)[0]);
    }
    if !(ref && !HasAnyOf(h[f], {AutowiredName})) {
      assert [] + h[f] == h[f];
      assert h[f := h[f]] == h;
    }
  }

  lemma ValuePart(create: Creator, h: Heap, f: Decl, value: Option<string>)
    requires f in h && (value.Some? ==> create(ValueText(value.value)).Some?)
    ensures Run(create, h, if value.Some? then ValueOps(f, value.value) else [])
      == Outcome(h[f := (if value.Some? then [create(ValueText(value.value)).value] else []) + h[f]], true)
  {
    if value.Some? {
      ValueStep(create, h, f, value.value);
    } else {
      assert [] + h[f] == h[f];
      assert h[f := h[f]] == h;
    }
  }

  /**
   * A property tag naming a field of the class, with every needed annotation
   * creatable: `@Autowired` on the field when it has a `ref` and the field
   * has none yet, and `@Value("v")` in front when it has a value.
   */
  lemma PropertyEffect(env: Env, h: Heap, c: Decl, t: Tag)
    requires "name" in t.attrs && t.attrs["name"] in c.fields && c.fields[t.attrs["name"]] in h
    requires "ref" in t.attrs ==> env.create(AutowiredText).Some?
    requires "value" in t.attrs ==> env.create(ValueText(t.attrs["value"])).Some?
    ensures var f := c.fields[t.attrs["name"]];
      Run(env.create, h, PropertyOps(c, t)) == Outcome(h[f :=
        (if "value" in t.attrs then [env.create(ValueText(t.attrs["value"])).value] else [])
        + (if "ref" in t.attrs && !HasAnyOf(h[f], {AutowiredName}) then [env.create(AutowiredText).value] else [])
        + h[f]], true)
  {
    assert PropertyOps(c, t) == FieldOps(c.fields[t.attrs["name"]], "ref" in t.attrs, Attr(t, "value"));
    FieldEffect(env.create, h, c.fields[t.attrs["name"]], "ref" in t.attrs, Attr(t, "value"));
  }

  /**
   * The first constructor taking `n` parameters, when it is not autowired
   * yet, receives `@Autowired` in front; the run stops when the annotation
   * cannot be created.
   */
  lemma ConstructorAutowired(env: Env, h: Heap, c: Decl, n: nat)
    requires FirstMatching(c.constructors, n).Some?
    requires var k := c.constructors[FirstMatching(c.constructors, n).value];
      k in h && !HasAnyOf(h[k], {AutowiredName})
    ensures var k := c.constructors[FirstMatching(c.constructors, n).value];
      env.create(AutowiredText).Some? ==>
        Run(env.create, h, ConstructorOps(c, n)) == Outcome(h[k := [env.create(AutowiredText).value] + h[k]], true)
    ensures env.create(AutowiredText).None? ==> Run(env.create, h, ConstructorOps(c, n)) == Outcome(h, false)
  {
    RunSingle(env.create, h, ConstructorOps(c, n)[0]);
  }

  /**
   * Constructor injection changes no declaration but the first constructor
   * taking `n` parameters, and not that one either when it is already
   * autowired.
   */
  lemma ConstructorInjectionFirstOnly(env: Env, h: Heap, c: Decl, n: nat)
    ensures forall d :: (d in h && (FirstMatching(c.constructors, n).None? || d != c.constructors[FirstMatching(c.constructors, n).value])
      ==> Run(env.create, h, ConstructorOps(c, n)).heap[d] == h[d])
    ensures FirstMatching(c.constructors, n).Some?
      && c.constructors[FirstMatching(c.constructors, n).value] in h
      && HasAnyOf(h[c.constructors[FirstMatching(c.constructors, n).value]], {AutowiredName})
      ==> Run(env.create, h, ConstructorOps(c, n)) == Outcome(h, true)
  {
    forall d | d in h && (FirstMatching(c.constructors, n).None? || d != c.constructors[FirstMatching(c.constructors, n).value])
      ensures Run(env.create, h, ConstructorOps(c, n)).heap[d] == h[d]
    {
      RunUntargeted(env.create, h, ConstructorOps(c, n), d);
    }
  }

  /** The adds of a bean's sub-tags are aimed at the fields of its class. */
  lemma {:induction false} PropertiesTargetFields(c: Decl, ts: seq<Tag>)
    ensures forall op :: op in PropertiesOps(c, ts) ==> op.target in c.fields.Values
    decreases |ts|
  {
    if ts != [] {
      PropertiesTargetFields(c, ts[..|ts| - 1]);
      var t := ts[|ts| - 1];
      if t.name == "property" && FindField(c, Attr(t, "name")).Some? {
        assert c.fields[t.attrs["name"]] in c.fields.Values;
      }
    }
  }

  /**
   * Without `constructor-arg` tags a bean's adds reach only its class and
   * its fields: every other declaration, every constructor among them, keeps
   * its annotations, even a constructor without parameters.
   */
  lemma NoArgsNoConstructorChange(env: Env, h: Heap, t: Tag, d: Decl)
    requires ArgCount(t) == 0
    requires "class" in t.attrs && t.attrs["class"] in env.project
    requires d in h && d != env.project[t.attrs["class"]] && d !in env.project[t.attrs["class"]].fields.Values
    ensures Run(env.create, h, BeanOps(env, t)).heap[d] == h[d]
  {
    var c := env.project[t.attrs["class"]];
    PropertiesTargetFields(c, t.children);
    assert BeanOps(env, t) == ComponentOps(env, c) + PropertiesOps(c, t.children) + [];
    RunUntargeted(env.create, h, BeanOps(env, t), d);
  }

  /** A bean whose `class` attribute is missing or names no project class changes nothing. */
  lemma UnresolvedBeanNoEffect(env: Env, h: Heap, t: Tag)
    requires "class" !in t.attrs || t.attrs["class"] !in env.project
    ensures Run(env.create, h, BeanOps(env, t)) == Outcome(h, true)
  {
  }

  /**
   * As written, a class carrying the real `@RestController` is not
   * recognised as a stereotype, so it also gets `@Component`.
   */
  lemma RestControllerGetsComponent(env: Env, h: Heap, c: Decl, a: Annotation)
    requires env.stereotypes == WrittenStereotypes
    requires a.qualifiedName == Some("org.springframework.web.bind.annotation.RestController")
    requires c in h && h[c] == [a] && env.create(ComponentText).Some?
    ensures Run(env.create, h, ComponentOps(env, c)).heap[c] == [env.create(ComponentText).value, a]
  {
    assert "org.springframework.web.bind.annotation.RestController" !in WrittenStereotypes;
    assert !HasAnyOf(h[c], env.stereotypes);
  }

  /** With the corrected list the same class is recognised and keeps its annotations. */
  lemma RestControllerRecognised(env: Env, h: Heap, c: Decl, a: Annotation)
    requires env.stereotypes == CorrectedStereotypes
    requires a.qualifiedName == Some("org.springframework.web.bind.annotation.RestController")
    requires c in h && a in h[c]
    ensures Run(env.create, h, ComponentOps(env, c)) == Outcome(h, true)
  {
    var i :| 0 <= i < |h[c]| && h[c][i] == a;
    assert HasAnyOf(h[c], env.stereotypes);
  }
}
