/**
 * The merge guard of the mapping-file converter (`addAnnotationIfNotPresent`):
 * an annotation text is added to a declaration only when no annotation with a
 * matching name is already there, and it is added at the front of the list.
 *
 * Which existing names count as a match is the `Guard`: `AsWritten` is the
 * comparison the converter makes, `BySimpleName` the corrected one (see
 * README, Findings). Everything built on top of the guard takes it as a
 * parameter, so each result below is stated for the comparison it holds for.
 */
module MergeGuard {
  import opened Wrappers
  import opened Psi
  import opened AnnotationText
  import Strings

  datatype Guard = AsWritten | BySimpleName

  /**
   * Does an existing annotation, resolved to `existing`, match the candidate
   * name `q`? As written: the existing name equals `q` or `q`'s simple name.
   * Corrected: the existing name equals `q`, or the two simple names agree.
   * An annotation the host could not resolve never matches.
   */
  predicate Matches(g: Guard, existing: Option<string>, q: string) {
    match existing
    case None => false
    case Some(n) =>
      match g
      case AsWritten => n == q || n == SimpleName(q)
      case BySimpleName => n == q || SimpleName(n) == SimpleName(q)
  }

  /** `hasAnnotation`: some annotation in the list matches `q`. */
  predicate Present(g: Guard, annos: seq<Annotation>, q: string) {
    exists i | 0 <= i < |annos| :: Matches(g, annos[i].qualifiedName, q)
  }

  /** Whatever the written comparison recognises, the corrected one recognises too. */
  lemma AsWrittenWithinBySimpleName(existing: Option<string>, q: string)
    requires Matches(AsWritten, existing, q)
    ensures Matches(BySimpleName, existing, q)
  {
    SimpleNameIdempotent(q);
  }

  /** A match stays a match when more annotations are put in front. */
  lemma PresentInLonger(g: Guard, front: seq<Annotation>, annos: seq<Annotation>, q: string)
    requires Present(g, annos, q)
    ensures Present(g, front + annos, q)
  {
    var i :| 0 <= i < |annos| && Matches(g, annos[i].qualifiedName, q);
    assert (front + annos)[|front| + i] == annos[i];
  }

  /**
   * The annotation list after one guarded add of `text`, where `created` is
   * what the host made of the text (nothing when it failed to parse).
   */
  function Merged(g: Guard, annos: seq<Annotation>, text: string, created: Option<Annotation>): (r: seq<Annotation>)
    ensures r == annos || (created.Some? && r == [created.value] + annos)
    ensures r == annos <==>
      ExtractQualifiedName(text).None? || created.None? || Present(g, annos, ExtractQualifiedName(text).value)
  {
    var q := ExtractQualifiedName(text);
    if q.None? || Present(g, annos, q.value) then annos
    else if created.None? then annos
    else [created.value] + annos
  }

  /** A request to add annotation `text` to declaration `target`. */
  datatype Write = Write(target: Decl, text: string)

  /** The same texts, all for one declaration. */
  function At(d: Decl, texts: seq<string>): (r: seq<Write>)
    ensures |r| == |texts|
    ensures forall i :: 0 <= i < |texts| ==> r[i] == Write(d, texts[i])
  {
    seq(|texts|, i requires 0 <= i < |texts| => Write(d, texts[i]))
  }

  lemma AtAppend(d: Decl, a: seq<string>, b: seq<string>)
    ensures At(d, a + b) == At(d, a) + At(d, b)
  {
  }

  /** One guarded add, on the heap of annotation lists. */
  function Add(g: Guard, create: Creator, h: Heap, w: Write): (r: Heap)
    ensures r.Keys == h.Keys
  {
    if w.target in h then h[w.target := Merged(g, h[w.target], w.text, create(w.text))] else h
  }

  /** A sequence of guarded adds, first to last. */
  function Apply(g: Guard, create: Creator, h: Heap, ws: seq<Write>): (r: Heap)
    ensures r.Keys == h.Keys
    decreases |ws|
  {
    if ws == [] then h else Apply(g, create, Add(g, create, h, ws[0]), ws[1..])
  }

  /** `addAnnotationIfNotPresent`. A creation failure is reported by the source and the list left alone. */
  method AddAnnotationIfNotPresent(g: Guard, create: Creator, d: Decl, text: string, ghost u: set<Decl>)
    requires d in u
    modifies d
    ensures d.annotations == Merged(g, old(d.annotations), text, create(text))
    ensures Snap(u) == Add(g, create, old(Snap(u)), Write(d, text))
    ensures Snap(u) == Apply(g, create, old(Snap(u)), At(d, [text]))
  {
    assert At(d, [text]) == [Write(d, text)];
    ApplyOne(g, create, old(Snap(u)), Write(d, text));
    var name := ExtractQualifiedName(text);
    if name.None? {
      return;
    }
    if Present(g, d.annotations, name.value) {
      return;
    }
    var created := create(text);
    if created.None? {
      return;
    }
    d.annotations := [created.value] + d.annotations;
  }

  /** `addMultipleAnnotations` (the source never calls it): a guarded add per text, in order. */
  method AddMultipleAnnotations(g: Guard, create: Creator, d: Decl, texts: seq<string>, ghost u: set<Decl>)
    requires d in u
    modifies d
    ensures Snap(u) == Apply(g, create, old(Snap(u)), At(d, texts))
  {
    for i := 0 to |texts|
      invariant Snap(u) == Apply(g, create, old(Snap(u)), At(d, texts[..i]))
    {
      AddAnnotationIfNotPresent(g, create, d, texts[i], u);
      ApplyAtNext(g, create, old(Snap(u)), d, texts, i);
    }
    assert texts[..|texts|] == texts;
  }

  /** One more text aimed at `d` is one more guarded add. */
  lemma ApplyAtNext(g: Guard, create: Creator, h: Heap, d: Decl, texts: seq<string>, i: nat)
    requires i < |texts|
    ensures Apply(g, create, h, At(d, texts[..i + 1]))
         == Add(g, create, Apply(g, create, h, At(d, texts[..i])), Write(d, texts[i]))
  {
    assert texts[..i + 1] == texts[..i] + [texts[i]];
    ApplyAtAppend(g, create, h, d, texts[..i], [texts[i]]);
    assert At(d, [texts[i]]) == [Write(d, texts[i])];
    ApplyOne(g, create, Apply(g, create, h, At(d, texts[..i])), Write(d, texts[i]));
  }

  /** Adds aimed at one declaration, split into two runs. */
  lemma ApplyAtAppend(g: Guard, create: Creator, h: Heap, d: Decl, a: seq<string>, b: seq<string>)
    ensures Apply(g, create, h, At(d, a + b)) == Apply(g, create, Apply(g, create, h, At(d, a)), At(d, b))
  {
    AtAppend(d, a, b);
    ApplyAppend(g, create, h, At(d, a), At(d, b));
  }

  lemma ApplyOne(g: Guard, create: Creator, h: Heap, w: Write)
    ensures Apply(g, create, h, [w]) == Add(g, create, h, w)
  {
    assert [w][1..] == [];
  }

  /** Running two lists of adds one after the other is running their concatenation. */
  lemma {:induction false} ApplyAppend(g: Guard, create: Creator, h: Heap, a: seq<Write>, b: seq<Write>)
    ensures Apply(g, create, h, a + b) == Apply(g, create, Apply(g, create, h, a), b)
    decreases |a|
  {
    if a == [] {
      assert a + b == b;
    } else {
      assert (a + b)[0] == a[0] && (a + b)[1..] == a[1..] + b;
      ApplyAppend(g, create, Add(g, create, h, a[0]), a[1..], b);
    }
  }

  /**
   * The guard only ever puts annotations in front: every declaration keeps
   * its existing annotations, in order, at the end of its list, and gains at
   * most one annotation per add aimed at it.
   */
  lemma {:induction false} ApplyOnlyPrepends(g: Guard, create: Creator, h: Heap, ws: seq<Write>, d: Decl)
    returns (front: seq<Annotation>)
    requires d in h
    ensures Apply(g, create, h, ws)[d] == front + h[d]
    ensures |front| <= |ws|
    decreases |ws|
  {
    if ws == [] {
      front := [];
    } else {
      var h1 := Add(g, create, h, ws[0]);
      var first := AddOnlyPrepends(g, create, h, ws[0], d);
      assert Apply(g, create, h, ws) == Apply(g, create, h1, ws[1..]);
      var rest := ApplyOnlyPrepends(g, create, h1, ws[1..], d);
      front := rest + first;
    }
  }

  lemma AddOnlyPrepends(g: Guard, create: Creator, h: Heap, w: Write, d: Decl) returns (first: seq<Annotation>)
    requires d in h
    ensures Add(g, create, h, w)[d] == first + h[d] && |first| <= 1
  {
    if w.target == d {
      var m := Merged(g, h[d], w.text, create(w.text));
      first := if m == h[d] then [] else [create(w.text).value];
    } else {
      first := [];
    }
  }

  /** A declaration no add is aimed at keeps its annotation list. */
  lemma {:induction false} ApplyUntargeted(g: Guard, create: Creator, h: Heap, ws: seq<Write>, d: Decl)
    requires d in h
    requires forall w :: w in ws ==> w.target != d
    ensures Apply(g, create, h, ws)[d] == h[d]
    decreases |ws|
  {
    if ws != [] {
      ApplyUntargeted(g, create, Add(g, create, h, ws[0]), ws[1..], d);
    }
  }

  /** A mark for `q` on a list: an annotation matching `q`, or the annotation `a` itself. */
  predicate Marked(g: Guard, annos: seq<Annotation>, q: string, a: Annotation) {
    Present(g, annos, q) || a in annos
  }

  /** `ApplyKeepsAdded` for an add found anywhere in the sequence, by its name. */
  lemma WriteKeepsMark(g: Guard, create: Creator, h: Heap, ws: seq<Write>, w: Write, q: string)
    requires w in ws && w.target in h
    requires ExtractQualifiedName(w.text) == Some(q) && create(w.text).Some?
    ensures Marked(g, Apply(g, create, h, ws)[w.target], q, create(w.text).value)
  {
    var i :| 0 <= i < |ws| && ws[i] == w;
    ApplyKeepsAdded(g, create, h, ws, i);
  }

  /** Adds only put annotations in front, so a mark survives them. */
  lemma {:induction false} ApplyKeepsMark(g: Guard, create: Creator, h: Heap, ws: seq<Write>, d: Decl, q: string, a: Annotation)
    requires d in h && Marked(g, h[d], q, a)
    ensures Marked(g, Apply(g, create, h, ws)[d], q, a)
  {
    var front := ApplyOnlyPrepends(g, create, h, ws, d);
    if Present(g, h[d], q) {
      PresentInLonger(g, front, h[d], q);
    }
  }

  /** One add whose text parses and is created leaves a mark on its target. */
  lemma AddMarks(g: Guard, create: Creator, h: Heap, w: Write)
    requires w.target in h
    requires ExtractQualifiedName(w.text).Some? && create(w.text).Some?
    ensures Marked(g, Add(g, create, h, w)[w.target], ExtractQualifiedName(w.text).value, create(w.text).value)
  {
    var r := Add(g, create, h, w)[w.target];
    if r != h[w.target] {
      assert r[0] == create(w.text).value;
    }
  }

  /**
   * An add whose text parses leaves its mark for good: after the whole
   * sequence, its target holds either an annotation that already matched
   * the name when the add ran, or the annotation the host created for it.
   */
  lemma {:induction false} ApplyKeepsAdded(g: Guard, create: Creator, h: Heap, ws: seq<Write>, i: nat)
    requires i < |ws| && ws[i].target in h
    requires ExtractQualifiedName(ws[i].text).Some? && create(ws[i].text).Some?
    ensures Marked(g, Apply(g, create, h, ws)[ws[i].target], ExtractQualifiedName(ws[i].text).value, create(ws[i].text).value)
    decreases i
  {
    var w := ws[i];
    var h1 := Add(g, create, h, ws[0]);
    assert Apply(g, create, h, ws) == Apply(g, create, h1, ws[1..]);
    if i == 0 {
      AddMarks(g, create, h, w);
      ApplyKeepsMark(g, create, h1, ws[1..], w.target, ExtractQualifiedName(w.text).value, create(w.text).value);
    } else {
      assert ws[1..][i - 1] == w;
      ApplyKeepsAdded(g, create, h1, ws[1..], i - 1);
    }
  }

  /**
   * The add `w` has nothing left to do on `h`: its name is empty, its text
   * does not parse, or a matching annotation is already on its target.
   */
  predicate Settled(g: Guard, create: Creator, h: Heap, w: Write) {
    w.target in h ==>
      ExtractQualifiedName(w.text).None? || create(w.text).None? ||
      Present(g, h[w.target], ExtractQualifiedName(w.text).value)
  }

  /**
   * The host gives every annotation it creates a resolved name that the
   * guard matches against the name written in the text. Without import
   * resolution (the name stays as written) this holds for both guards; once
   * simple names resolve to qualified ones it holds only for `BySimpleName`.
   */
  ghost predicate Recognises(g: Guard, create: Creator) {
    forall t :: create(t).Some? && ExtractQualifiedName(t).Some? ==>
      Matches(g, create(t).value.qualifiedName, ExtractQualifiedName(t).value)
  }

  lemma SettledAdd(g: Guard, create: Creator, h: Heap, w: Write, v: Write)
    requires Settled(g, create, h, w)
    ensures Settled(g, create, Add(g, create, h, v), w)
  {
    var h1 := Add(g, create, h, v);
    if w.target in h && v.target == w.target && ExtractQualifiedName(w.text).Some? && create(w.text).Some? {
      var q := ExtractQualifiedName(w.text).value;
      if h1[w.target] != h[w.target] {
        PresentInLonger(g, [h1[w.target][0]], h[w.target], q);
        assert h1[w.target] == [h1[w.target][0]] + h[w.target];
      }
    }
  }

  lemma {:induction false} SettledApply(g: Guard, create: Creator, h: Heap, w: Write, ws: seq<Write>)
    requires Settled(g, create, h, w)
    ensures Settled(g, create, Apply(g, create, h, ws), w)
    decreases |ws|
  {
    if ws != [] {
      SettledAdd(g, create, h, w, ws[0]);
      SettledApply(g, create, Add(g, create, h, ws[0]), w, ws[1..]);
    }
  }

  /** Under `Recognises`, an add has nothing left to do once it has run. */
  lemma SettledAfterAdd(g: Guard, create: Creator, h: Heap, w: Write)
    requires Recognises(g, create)
    ensures Settled(g, create, Add(g, create, h, w), w)
  {
    var h1 := Add(g, create, h, w);
    if w.target in h && ExtractQualifiedName(w.text).Some? && create(w.text).Some? {
      var q := ExtractQualifiedName(w.text).value;
      if !Present(g, h[w.target], q) {
        assert h1[w.target][0] == create(w.text).value;
      }
    }
  }

  /** After a run, every add of the run has nothing left to do. */
  lemma {:induction false} ApplySettles(g: Guard, create: Creator, h: Heap, ws: seq<Write>)
    requires Recognises(g, create)
    ensures forall w :: w in ws ==> Settled(g, create, Apply(g, create, h, ws), w)
    decreases |ws|
  {
    if ws != [] {
      var h1 := Add(g, create, h, ws[0]);
      SettledAfterAdd(g, create, h, ws[0]);
      SettledApply(g, create, h1, ws[0], ws[1..]);
      ApplySettles(g, create, h1, ws[1..]);
      assert forall w :: w in ws ==> w == ws[0] || w in ws[1..];
    }
  }

  /** Adds that have nothing left to do change nothing. */
  lemma {:induction false} ApplySettledIsIdentity(g: Guard, create: Creator, h: Heap, ws: seq<Write>)
    requires forall w :: w in ws ==> Settled(g, create, h, w)
    ensures Apply(g, create, h, ws) == h
    decreases |ws|
  {
    if ws != [] {
      var w := ws[0];
      assert Settled(g, create, h, w);
      if w.target in h {
        assert Merged(g, h[w.target], w.text, create(w.text)) == h[w.target];
      }
      assert Add(g, create, h, w) == h;
      ApplySettledIsIdentity(g, create, h, ws[1..]);
    }
  }

  /** Running the same adds a second time changes nothing, when the guard recognises what it created. */
  lemma ApplyIdempotent(g: Guard, create: Creator, h: Heap, ws: seq<Write>)
    requires Recognises(g, create)
    ensures Apply(g, create, Apply(g, create, h, ws), ws) == Apply(g, create, h, ws)
  {
    ApplySettles(g, create, h, ws);
    ApplySettledIsIdentity(g, create, Apply(g, create, h, ws), ws);
  }

  /** The host leaves the name as written in the text (no import resolves it). */
  ghost predicate KeepsWrittenName(create: Creator) {
    forall t :: create(t).Some? ==> create(t).value.qualifiedName == ExtractQualifiedName(t)
  }

  /** The host resolves the written name to one with the same simple name. */
  ghost predicate KeepsSimpleName(create: Creator) {
    forall t :: create(t).Some? && ExtractQualifiedName(t).Some? ==>
      create(t).value.qualifiedName.Some? &&
      SimpleName(create(t).value.qualifiedName.value) == SimpleName(ExtractQualifiedName(t).value)
  }

  /** Without import resolution both comparisons recognise what was created. */
  lemma WrittenNamesRecognised(g: Guard, create: Creator)
    requires KeepsWrittenName(create)
    ensures Recognises(g, create)
  {
  }

  /** With import resolution the corrected comparison still recognises what was created. */
  lemma ResolvedNamesRecognisedBySimpleName(create: Creator)
    requires KeepsSimpleName(create)
    ensures Recognises(BySimpleName, create)
  {
  }

  lemma EntityNames()
    ensures ExtractQualifiedName("@Entity") == Some("Entity")
    ensures SimpleName("Entity") == "Entity"
    ensures SimpleName("javax.persistence.Entity") == "Entity"
  {
    EntityExtracted();
    EntitySimpleName();
    QualifiedEntityName();
  }

  lemma EntitySimpleName()
    ensures SimpleName("Entity") == "Entity"
  {
    assert Strings.LastIndexOf("Entity", '.') == -1;
  }

  lemma EntityExtracted()
    ensures ExtractQualifiedName("@Entity") == Some("Entity")
  {
    ExtractBuilt("Entity", []);
  }

  lemma QualifiedEntityName()
    ensures SimpleName("javax.persistence.Entity") == "Entity"
  {
    var fqn := "javax.persistence.Entity";
    assert fqn[17] == '.' && fqn[18..] == "Entity";
    assert '.' !in fqn[18..];
    assert Strings.LastIndexOf(fqn, '.') == 17;
  }

  /** On one annotation list: the resolved copy is seen only by the corrected comparison. */
  lemma ResolvedNameMerged(q: string, a: Annotation, text: string)
    requires ExtractQualifiedName(text) == Some(q) && a.qualifiedName.Some?
    requires var n := a.qualifiedName.value;
             n != q && n != SimpleName(q) && SimpleName(n) == SimpleName(q)
    ensures Merged(AsWritten, [], text, Some(a)) == [a]
    ensures Merged(AsWritten, [a], text, Some(a)) == [a, a]
    ensures Merged(BySimpleName, [a], text, Some(a)) == [a]
  {
    SeenOnlyBySimpleName(q, a);
    MergedAdds(AsWritten, [], text, a);
    MergedAdds(AsWritten, [a], text, a);
  }

  /** The two comparisons on one annotation whose name differs from `q` but shares its simple name. */
  lemma SeenOnlyBySimpleName(q: string, a: Annotation)
    requires a.qualifiedName.Some?
    requires var n := a.qualifiedName.value;
             n != q && n != SimpleName(q) && SimpleName(n) == SimpleName(q)
    ensures !Present(AsWritten, [], q) && !Present(AsWritten, [a], q) && Present(BySimpleName, [a], q)
  {
    assert [a][0] == a;
    assert Matches(BySimpleName, [a][0].qualifiedName, q);
  }

  /** With nothing matching, a created annotation goes in front. */
  lemma MergedAdds(g: Guard, annos: seq<Annotation>, text: string, a: Annotation)
    requires ExtractQualifiedName(text).Some? && !Present(g, annos, ExtractQualifiedName(text).value)
    ensures Merged(g, annos, text, Some(a)) == [a] + annos
  {
  }

  /** One guarded add on a heap holding only `d`. */
  lemma AddOnSingleton(g: Guard, create: Creator, d: Decl, annos: seq<Annotation>, text: string)
    ensures Add(g, create, map[d := annos], Write(d, text)) == map[d := Merged(g, annos, text, create(text))]
  {
    var h: Heap := map[d := annos];
    assert h[d := Merged(g, annos, text, create(text))] == map[d := Merged(g, annos, text, create(text))];
  }

  /**
   * The comparison as written misses an annotation that the host resolved to
   * a longer qualified name with the same simple name: a second run adds a
   * second copy, where the corrected comparison leaves the list alone.
   */
  lemma ResolvedNameDuplicated(d: Decl, create: Creator, text: string, a: Annotation)
    requires ExtractQualifiedName(text).Some? && create(text) == Some(a) && a.qualifiedName.Some?
    requires var q := ExtractQualifiedName(text).value;
             var n := a.qualifiedName.value;
             n != q && n != SimpleName(q) && SimpleName(n) == SimpleName(q)
    ensures var ws := [Write(d, text)];
            var once := Apply(AsWritten, create, map[d := []], ws);
            once == map[d := [a]] && Apply(AsWritten, create, once, ws) == map[d := [a, a]] &&
            Apply(BySimpleName, create, once, ws) == once
  {
    var w := Write(d, text);
    ResolvedNameMerged(ExtractQualifiedName(text).value, a, text);
    ApplyOne(AsWritten, create, map[d := []], w);
    AddOnSingleton(AsWritten, create, d, [], text);
    ApplyOne(AsWritten, create, map[d := [a]], w);
    AddOnSingleton(AsWritten, create, d, [a], text);
    ApplyOne(BySimpleName, create, map[d := [a]], w);
    AddOnSingleton(BySimpleName, create, d, [a], text);
  }

  /** `@Entity` resolved to `javax.persistence.Entity` is such a case. */
  lemma ResolvedEntityDuplicated(d: Decl, create: Creator)
    requires create("@Entity") == Some(Annotation("@Entity", Some("javax.persistence.Entity")))
    ensures var a := Annotation("@Entity", Some("javax.persistence.Entity"));
            var ws := [Write(d, "@Entity")];
            var once := Apply(AsWritten, create, map[d := []], ws);
            Apply(AsWritten, create, once, ws) == map[d := [a, a]] &&
            Apply(BySimpleName, create, once, ws) == once
  {
    EntityNames();
    ResolvedNameDuplicated(d, create, "@Entity", Annotation("@Entity", Some("javax.persistence.Entity")));
  }
}
