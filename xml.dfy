/**
 * The parsed XML document as the converters read it: a tree of tags, each with
 * its attributes, its ordered sub-tags and the text range it occupies in the
 * file. The tree is read-only for the converters.
 */
module Xml {
  import opened Wrappers
  import opened Seqs

  datatype Tag = Tag(name: string, attrs: map<string, string>, children: seq<Tag>, start: int, end: int)

  /** An editor selection: none, or the offsets where it starts and ends. */
  datatype Selection = NoSelection | Range(start: int, end: int)

  /** `XmlTag.getAttributeValue`: the attribute's value, or nothing when it is absent. */
  function Attr(t: Tag, key: string): (r: Option<string>)
    ensures r.Some? <==> key in t.attrs
    ensures r.Some? ==> r.value == t.attrs[key]
  {
    if key in t.attrs then Some(t.attrs[key]) else None
  }

  /** `XmlTag.getSubTags` filtered by name, as `findSubTags(name)` does. */
  function SubTagsNamed(t: Tag, name: string): (r: seq<Tag>)
    ensures forall c :: c in r <==> c in t.children && c.name == name
  {
    Filter(t.children, (c: Tag) => c.name == name)
  }

  /** `XmlTag.findFirstSubTag(name)`. */
  function FirstSubTag(t: Tag, name: string): (r: Option<Tag>)
    ensures r.None? <==> forall c :: c in t.children ==> c.name != name
    ensures r.Some? ==> r.value in t.children && r.value.name == name
  {
    var found := SubTagsNamed(t, name);
    if found == [] then None else Some(found[0])
  }

  /**
   * Every tag strictly below `t`, in document order (a tag before its
   * sub-tags, sub-trees left to right), as `PsiTreeUtil.findChildrenOfType`
   * collects them.
   */
  function Descendants(t: Tag): seq<Tag>
    decreases t, |t.children| + 1
  {
    DescendantsOfFirst(t, |t.children|)
  }

  /** The tags in the sub-trees of the first `n` children of `t`, in document order. */
  function DescendantsOfFirst(t: Tag, n: nat): seq<Tag>
    requires n <= |t.children|
    decreases t, n
  {
    if n == 0 then []
    else DescendantsOfFirst(t, n - 1) + [t.children[n - 1]] + Descendants(t.children[n - 1])
  }

  /** Every child of a tag is among its descendants. */
  lemma {:induction false} ChildIsDescendant(t: Tag, i: nat)
    requires i < |t.children|
    ensures t.children[i] in Descendants(t)
  {
    PrefixDescendantsGrow(t, i + 1, |t.children|);
  }

  lemma {:induction false} PrefixDescendantsGrow(t: Tag, n: nat, m: nat)
    requires 0 < n <= m <= |t.children|
    ensures t.children[n - 1] in DescendantsOfFirst(t, m)
  {
    if n < m {
      PrefixDescendantsGrow(t, n, m - 1);
    }
  }

  /** Taking more children only extends the list of descendants at its end. */
  lemma {:induction false} DescendantsOfFirstPrefix(t: Tag, n: nat, m: nat)
    requires n <= m <= |t.children|
    ensures DescendantsOfFirst(t, n) <= DescendantsOfFirst(t, m)
    decreases m
  {
    if n < m {
      DescendantsOfFirstPrefix(t, n, m - 1);
    }
  }

  /** A descendant of a child is a descendant: the traversal reaches every depth. */
  lemma {:induction false} DescendantOfChild(t: Tag, c: Tag, x: Tag)
    requires c in t.children && x in Descendants(c)
    ensures x in Descendants(t)
  {
    var i :| 0 <= i < |t.children| && t.children[i] == c;
    DescendantsOfFirstPrefix(t, i + 1, |t.children|);
    var p := DescendantsOfFirst(t, i + 1);
    assert p == DescendantsOfFirst(t, i) + [c] + Descendants(c);
    assert x in p;
  }

  /** The tag lies fully inside the selected offsets. */
  predicate Within(t: Tag, start: int, end: int) {
    t.start >= start && t.end <= end
  }
}
