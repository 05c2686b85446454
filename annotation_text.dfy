/**
 * Annotation source text: how the converters write it (a name and an ordered
 * list of `key = value` attributes) and how the merge guard reads a name back
 * out of it.
 */
module AnnotationText {
  import opened Wrappers
  import opened Strings
  import opened Seqs

  /** An attribute: its key and its value already written as Java source (`"x"`, `FetchType.LAZY`). */
  type Pair = (string, string)

  function Entry(p: Pair): string {
    p.0 + " = " + p.1
  }

  function Entries(ps: seq<Pair>): (r: seq<string>)
    ensures |r| == |ps|
    ensures forall i :: 0 <= i < |ps| ==> r[i] == Entry(ps[i])
  {
    seq(|ps|, i requires 0 <= i < |ps| => Entry(ps[i]))
  }

  /**
   * The text the converters build with a `StringBuilder`: `@Name(` then the
   * entries joined by ", " then `)`; the parentheses are there even when
   * there are no attributes.
   */
  function Render(name: string, ps: seq<Pair>): string {
    "@" + name + "(" + Join(Entries(ps), ", ") + ")"
  }

  /** `buildAnnotationText`: like `Render`, but a bare `@Name` when there are no attributes. */
  function BuildAnnotationText(name: string, ps: seq<Pair>): (r: string)
    ensures ps == [] ==> r == "@" + name
    ensures ps != [] ==> r == Render(name, ps)
  {
    if ps == [] then "@" + name else Render(name, ps)
  }

  /** The keys of the attributes, in order. */
  function Keys(ps: seq<Pair>): (r: seq<string>)
    ensures |r| == |ps|
    ensures forall i :: 0 <= i < |ps| ==> r[i] == ps[i].0
  {
    seq(|ps|, i requires 0 <= i < |ps| => ps[i].0)
  }

  /** The value of the first attribute with key `k`. */
  function Lookup(ps: seq<Pair>, k: string): (r: Option<string>)
    ensures r.None? <==> k !in Keys(ps)
    ensures r.Some? ==> (k, r.value) in ps
  {
    if ps == [] then None
    else if ps[0].0 == k then Some(ps[0].1)
    else
      assert Keys(ps) == [ps[0].0] + Keys(ps[1..]);
      Lookup(ps[1..], k)
  }

  lemma {:induction false} LookupAppend(a: seq<Pair>, b: seq<Pair>, k: string)
    ensures Lookup(a + b, k) == if k in Keys(a) then Lookup(a, k) else Lookup(b, k)
  {
    if a != [] {
      assert (a + b)[1..] == a[1..] + b;
      assert Keys(a) == [a[0].0] + Keys(a[1..]);
      LookupAppend(a[1..], b, k);
    } else {
      assert a + b == b;
    }
  }

  lemma KeysAppend(a: seq<Pair>, b: seq<Pair>)
    ensures Keys(a + b) == Keys(a) + Keys(b)
  {
  }

  /** One optional attribute: the pair when the value is there, nothing otherwise. */
  function Opt(k: string, v: Option<string>): (r: seq<Pair>)
    ensures |r| <= 1
  {
    if v.Some? then [(k, v.value)] else []
  }

  /**
   * The attribute lists the converters build by appending one optional
   * attribute after another: for each key in turn, its pair when its value
   * is there.
   */
  function Pairs(ks: seq<string>, vs: seq<Option<string>>): (r: seq<Pair>)
    requires |ks| == |vs|
    ensures |r| <= |ks|
    decreases |ks|
  {
    if ks == [] then [] else Opt(ks[0], vs[0]) + Pairs(ks[1..], vs[1..])
  }

  /** Every key of an attribute list comes from the keys offered. */
  lemma {:induction false} PairsKeysOffered(ks: seq<string>, vs: seq<Option<string>>, k: string)
    requires |ks| == |vs| && k in Keys(Pairs(ks, vs))
    ensures k in ks
    decreases |ks|
  {
    KeysAppend(Opt(ks[0], vs[0]), Pairs(ks[1..], vs[1..]));
    if k !in Keys(Opt(ks[0], vs[0])) {
      PairsKeysOffered(ks[1..], vs[1..], k);
    }
  }

  /** An attribute list is empty exactly when none of its values is there. */
  lemma {:induction false} PairsEmpty(ks: seq<string>, vs: seq<Option<string>>)
    requires |ks| == |vs|
    ensures Pairs(ks, vs) == [] <==> forall i :: 0 <= i < |vs| ==> vs[i].None?
    decreases |ks|
  {
    if ks != [] {
      PairsEmpty(ks[1..], vs[1..]);
      assert forall i :: 1 <= i < |vs| ==> vs[i] == vs[1..][i - 1];
    }
  }

  /** With distinct keys, each key reads back exactly the value it was offered with. */
  lemma {:induction false} PairsLookup(ks: seq<string>, vs: seq<Option<string>>, i: nat)
    requires |ks| == |vs| && Distinct(ks) && i < |ks|
    ensures Lookup(Pairs(ks, vs), ks[i]) == vs[i]
    decreases |ks|
  {
    var head := Opt(ks[0], vs[0]);
    var rest := Pairs(ks[1..], vs[1..]);
    LookupAppend(head, rest, ks[i]);
    if i == 0 {
      if vs[0].None? && ks[0] in Keys(rest) {
        PairsKeysOffered(ks[1..], vs[1..], ks[0]);
      }
    } else {
      assert ks[1..][i - 1] == ks[i];
      PairsLookup(ks[1..], vs[1..], i - 1);
    }
  }

  /** The attributes appear in the order their keys were offered. */
  lemma {:induction false} PairsKeysInOrder(ks: seq<string>, vs: seq<Option<string>>)
    requires |ks| == |vs|
    ensures IsSubsequence(Keys(Pairs(ks, vs)), ks)
    decreases |ks|
  {
    if ks != [] {
      var head := Opt(ks[0], vs[0]);
      var rest := Pairs(ks[1..], vs[1..]);
      KeysAppend(head, rest);
      PairsKeysInOrder(ks[1..], vs[1..]);
      var a := Keys(Pairs(ks, vs));
      if vs[0].Some? {
        assert a[0] == ks[0] && a[1..] == Keys(rest);
      } else {
        assert a == Keys(rest);
      }
    }
  }

  /** The text after one leading `@`, if there is one. */
  function DropAt(text: string): (body: string)
    ensures text != [] && text[0] == '@' ==> body == text[1..]
    ensures text == [] || text[0] != '@' ==> body == text
  {
    if text != [] && text[0] == '@' then text[1..] else text
  }

  /** The text before the first `(`, when that `(` is not the first character; else all of it. */
  function BeforeParen(body: string): (name: string)
    ensures |name| <= |body| && name == body[..|name|]
  {
    var paren := IndexOf(body, '(');
    if paren > 0 then body[..paren] else body
  }

  /**
   * `extractQualifiedName`: nothing for empty text; otherwise, after dropping
   * one leading `@`, the trimmed text before the first `(` when that `(` is
   * not the first character, else the whole trimmed text.
   */
  function ExtractQualifiedName(text: string): (r: Option<string>)
    ensures r.None? <==> text == []
    ensures r.Some? ==> |r.value| < |text| || (text[0] != '@' && |r.value| == |text|)
    ensures r.Some? && r.value != [] ==> !IsBlank(r.value[0]) && !IsBlank(r.value[|r.value| - 1])
  {
    if text == [] then None else Some(Trim(BeforeParen(DropAt(text))))
  }

  /**
   * The name is cut at the first `(` when that `(` is past the first
   * character, and is the whole trimmed text otherwise.
   */
  lemma ExtractCutsAtParen(text: string)
    requires text != []
    ensures var b := DropAt(text);
            IndexOf(b, '(') > 0 ==> '(' !in ExtractQualifiedName(text).value
    ensures var b := DropAt(text);
            IndexOf(b, '(') <= 0 ==> ExtractQualifiedName(text).value == Trim(b)
  {
    var b := DropAt(text);
    var p := IndexOf(b, '(');
    if p > 0 {
      TrimKeepsOut(b[..p], '(');
    }
  }

  /** `getSimpleName`: the text after the last `.`, when that `.` is not the first character. */
  function SimpleName(q: string): (r: string)
    ensures |r| <= |q| && r == q[|q| - |r|..]
    ensures r == q || '.' !in r
    ensures r != q ==> |q| - |r| - 1 > 0 && q[|q| - |r| - 1] == '.'
  {
    var dot := LastIndexOf(q, '.');
    if dot > 0 then q[dot + 1..] else q
  }

  /** The name is kept whole exactly when it has no `.` past its first character. */
  lemma SimpleNameWhole(q: string)
    ensures SimpleName(q) == q <==> forall i :: 0 < i < |q| ==> q[i] != '.'
  {
    var dot := LastIndexOf(q, '.');
    if dot <= 0 {
      forall i | 0 < i < |q|
        ensures q[i] != '.'
      {
        if dot == 0 {
          assert q[i] == q[dot + 1..][i - 1];
        }
      }
    }
  }

  /** Taking the simple name twice changes nothing. */
  lemma SimpleNameIdempotent(q: string)
    ensures SimpleName(SimpleName(q)) == SimpleName(q)
  {
    var r := SimpleName(q);
    if r != q {
      assert LastIndexOf(r, '.') == -1;
    }
  }

  /** A name the converters write after `@`: not empty, no `(`, no blank at either end. */
  predicate PlainName(n: string) {
    |n| > 0 && '(' !in n && !IsBlank(n[0]) && !IsBlank(n[|n| - 1])
  }

  lemma IndexOfSeparator(a: string, c: char, b: string)
    requires c !in a
    ensures IndexOf(a + [c] + b, c) == |a|
  {
    var s := a + [c] + b;
    var r := IndexOf(s, c);
    assert s[|a|] == c;
    assert forall i :: 0 <= i < |a| ==> s[i] == a[i];
  }

  /** A plain name followed by `(` is cut back to that name, whatever follows. */
  lemma BeforeParenOfName(name: string, rest: string)
    requires PlainName(name)
    ensures BeforeParen(name + ['('] + rest) == name
  {
    IndexOfSeparator(name, '(', rest);
    assert (name + ['('] + rest)[..|name|] == name;
  }

  /** After `@`, a plain name followed by `(` is read back as that name, whatever follows. */
  lemma ExtractBeforeParen(name: string, rest: string)
    requires PlainName(name)
    ensures ExtractQualifiedName("@" + name + "(" + rest) == Some(name)
  {
    var text := "@" + name + "(" + rest;
    assert DropAt(text) == name + ['('] + rest;
    BeforeParenOfName(name, rest);
  }

  /** The guard reads back the name the synthesizer wrote: `Render` and `extractQualifiedName` agree. */
  lemma ExtractRendered(name: string, ps: seq<Pair>)
    requires PlainName(name)
    ensures ExtractQualifiedName(Render(name, ps)) == Some(name)
  {
    var rest := Join(Entries(ps), ", ") + ")";
    assert DropAt(Render(name, ps)) == name + ['('] + rest;
    BeforeParenOfName(name, rest);
  }

  /** The same for a bare `@Name`, and so for everything `buildAnnotationText` writes. */
  lemma {:induction false} ExtractBuilt(name: string, ps: seq<Pair>)
    requires PlainName(name)
    ensures ExtractQualifiedName("@" + name) == Some(name)
    ensures ExtractQualifiedName(BuildAnnotationText(name, ps)) == Some(name)
  {
    assert DropAt("@" + name) == name;
    assert BeforeParen(name) == name;
    ExtractRendered(name, ps);
  }
}
