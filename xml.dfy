/** The part of xml.etree.ElementTree the sources and media-sources documents
    use: an element with a tag, attributes, optional text and ordered children,
    and the direct-child queries `find`, `findall` and `remove`. Tail text and
    serialisation are not modelled. */
module Xml {
  import opened Wrappers
  import opened Errors

  datatype Element = Element(tag: string, attrs: map<string, string>, text: Option<string>, children: seq<Element>)

  /** `Element(tag)`: no attributes, no text, no children. */
  function Bare(tag: string): Element {
    Element(tag, map[], None, [])
  }

  /** `parent.find(tag)`, given as the position of the first direct child
      carrying `tag`, so that the caller can replace that child. */
  function FindIndex(children: seq<Element>, tag: string): (r: Option<nat>)
    ensures r.Some? ==> r.value < |children| && children[r.value].tag == tag
    ensures r.Some? ==> forall j :: 0 <= j < r.value ==> children[j].tag != tag
    ensures r.None? <==> forall j :: 0 <= j < |children| ==> children[j].tag != tag
  {
    if children == [] then None
    else if children[0].tag == tag then Some(0)
    else match FindIndex(children[1..], tag)
      case None => None
      case Some(i) => Some(i + 1)
  }

  /** `parent.findall(tag)`: the direct children carrying `tag`, in order. */
  function FindAll(children: seq<Element>, tag: string): (r: seq<Element>)
    ensures forall x :: x in r <==> x in children && x.tag == tag
    ensures |r| <= |children|
  {
    if children == [] then []
    else (if children[0].tag == tag then [children[0]] else []) + FindAll(children[1..], tag)
  }

  /** The direct children not carrying `tag`, in order. */
  function Without(children: seq<Element>, tag: string): (r: seq<Element>)
    ensures forall x :: x in r <==> x in children && x.tag != tag
    ensures |r| + |FindAll(children, tag)| == |children|
  {
    if children == [] then []
    else (if children[0].tag != tag then [children[0]] else []) + Without(children[1..], tag)
  }

  /** The position of the first child equal to `x`. */
  function FirstIndexOf(children: seq<Element>, x: Element): (k: nat)
    requires x in children
    ensures k < |children| && children[k] == x
    ensures forall j :: 0 <= j < k ==> children[j] != x
  {
    if children[0] == x then 0
    else
      assert x in children[1..];
      FirstIndexOf(children[1..], x) + 1
  }

  /** `parent.remove(x)`: drops the first child equal to `x` and keeps the
      others in order; the caller guarantees that there is one (ElementTree
      raises ValueError otherwise). */
  function RemoveFirst(children: seq<Element>, x: Element): (r: seq<Element>)
    requires x in children
    ensures |r| == |children| - 1
    ensures var k := FirstIndexOf(children, x);
            r == children[..k] + children[k + 1..]
  {
    if children[0] == x then children[1..]
    else
      assert children == [children[0]] + children[1..];
      var rest := RemoveFirst(children[1..], x);
      var k := FirstIndexOf(children[1..], x);
      assert children[..k + 1] == [children[0]] + children[1..][..k];
      assert children[k + 2..] == children[1..][k + 1..];
      [children[0]] + rest
  }

  /** `children` with its first `k` children that carry `tag` dropped. */
  function DropTagged(children: seq<Element>, tag: string, k: nat): seq<Element> {
    if children == [] then []
    else if children[0].tag == tag && k > 0 then DropTagged(children[1..], tag, k - 1)
    else [children[0]] + DropTagged(children[1..], tag, k)
  }

  lemma {:induction false} DropNoneTagged(children: seq<Element>, tag: string)
    ensures DropTagged(children, tag, 0) == children
  {
    if children != [] {
      DropNoneTagged(children[1..], tag);
    }
  }

  /** Removing the `i`-th child that carries `tag` from a list whose first `i`
      such children are already gone drops one more of them. */
  lemma {:induction false} RemoveNextTagged(children: seq<Element>, tag: string, i: nat)
    requires i < |FindAll(children, tag)|
    ensures FindAll(children, tag)[i] in DropTagged(children, tag, i)
    ensures RemoveFirst(DropTagged(children, tag, i), FindAll(children, tag)[i]) == DropTagged(children, tag, i + 1)
  {
    var x := FindAll(children, tag)[i];
    if children[0].tag == tag {
      if i == 0 {
        DropNoneTagged(children, tag);
        DropNoneTagged(children[1..], tag);
      } else {
        RemoveNextTagged(children[1..], tag, i - 1);
      }
    } else {
      RemoveNextTagged(children[1..], tag, i);
      assert x in FindAll(children, tag);
      assert x != children[0];
    }
  }

  /** Dropping as many tagged children as there are leaves the untagged ones. */
  lemma {:induction false} DropAllTagged(children: seq<Element>, tag: string)
    ensures DropTagged(children, tag, |FindAll(children, tag)|) == Without(children, tag)
  {
    if children != [] {
      DropAllTagged(children[1..], tag);
    }
  }

  lemma {:induction false} FindAllAppend(children: seq<Element>, x: Element, tag: string)
    ensures FindAll(children + [x], tag) == FindAll(children, tag) + (if x.tag == tag then [x] else [])
  {
    if children != [] {
      assert (children + [x])[1..] == children[1..] + [x];
      FindAllAppend(children[1..], x, tag);
    }
  }

  lemma {:induction false} WithoutAppend(children: seq<Element>, x: Element, tag: string)
    ensures Without(children + [x], tag) == Without(children, tag) + (if x.tag != tag then [x] else [])
  {
    if children == [] {
      assert children + [x] == [x];
      assert Without([x], tag) == (if x.tag != tag then [x] else []) + Without([], tag);
    } else {
      var head := if children[0].tag != tag then [children[0]] else [];
      var tail := if x.tag != tag then [x] else [];
      assert (children + [x])[0] == children[0];
      assert (children + [x])[1..] == children[1..] + [x];
      WithoutAppend(children[1..], x, tag);
      calc {
        Without(children + [x], tag);
        head + Without(children[1..] + [x], tag);
        head + (Without(children[1..], tag) + tail);
        (head + Without(children[1..], tag)) + tail;
        Without(children, tag) + tail;
      }
    }
  }

  /** Filtering out a tag twice is filtering it out once. */
  lemma {:induction false} WithoutIdempotent(children: seq<Element>, tag: string)
    ensures Without(Without(children, tag), tag) == Without(children, tag)
    ensures FindAll(Without(children, tag), tag) == []
  {
    if children != [] {
      var rest := Without(children[1..], tag);
      WithoutIdempotent(children[1..], tag);
      if children[0].tag != tag {
        assert Without(children, tag) == [children[0]] + rest;
        assert ([children[0]] + rest)[1..] == rest;
      } else {
        assert Without(children, tag) == rest;
      }
    }
  }

  /** Replacing a child by one with the same tag keeps where `find` lands. */
  lemma FindIndexAfterReplace(children: seq<Element>, tag: string, i: nat, e: Element)
    requires FindIndex(children, tag) == Some(i)
    requires e.tag == tag
    ensures FindIndex(children[i := e], tag) == Some(i)
  {
    assert children[i := e][i].tag == tag;
  }

  /** Appending a child with a tag no earlier child carries makes it the one
      `find` lands on. */
  lemma FindIndexAfterAppend(children: seq<Element>, tag: string, x: Element)
    requires FindIndex(children, tag).None? && x.tag == tag
    ensures FindIndex(children + [x], tag) == Some(|children|)
  {
    assert (children + [x])[|children|].tag == tag;
    assert forall j :: 0 <= j < |children| ==> (children + [x])[j] == children[j];
  }

  /** Whether a store was rewritten, and with which tree. */
  datatype Update = Keep | Write(root: Element)

  /** The content of a document file after an operation: unchanged unless the
      operation wrote a tree. */
  function Stored(file: Option<Element>, r: Result<Update, Error>): Option<Element> {
    if r.Success? && r.value.Write? then Some(r.value.root) else file
  }

  function ErrorOf<T>(r: Result<T, Error>): Option<Error> {
    if r.Failure? then Some(r.error) else None
  }
}
