/** Texts as UTF-16 code units, and edit scripts over them. */
module DiffText {

  type Code = c: int | 0 <= c < 65536
  type Str = seq<Code>

  const NEWLINE: Code := 10

  datatype Op = Delete | Insert | Equal
  datatype Diff = Diff(op: Op, text: Str)

  /** The texts of all parts except those of kind `skip`, joined. */
  function Side(a: seq<Diff>, skip: Op): Str {
    if a == [] then [] else (if a[0].op == skip then [] else a[0].text) + Side(a[1..], skip)
  }

  /** The source text of a script. */
  function Text1(a: seq<Diff>): Str {
    Side(a, Insert)
  }

  /** The destination text of a script. */
  function Text2(a: seq<Diff>): Str {
    Side(a, Delete)
  }

  /** Two scripts between the same two texts. */
  predicate Same(a: seq<Diff>, b: seq<Diff>) {
    Text1(a) == Text1(b) && Text2(a) == Text2(b)
  }

  /** Total length of the edits. */
  function EditLength(a: seq<Diff>): nat {
    if a == [] then 0 else (if a[0].op == Equal then 0 else |a[0].text|) + EditLength(a[1..])
  }

  lemma {:induction false} SideConcat(a: seq<Diff>, b: seq<Diff>, skip: Op)
    ensures Side(a + b, skip) == Side(a, skip) + Side(b, skip)
  {
    if a == [] {
      assert a + b == b;
    } else {
      SideConcat(a[1..], b, skip);
      TailOfConcat(a, b);
      ConcatThree(if a[0].op == skip then [] else a[0].text, Side(a[1..], skip), Side(b, skip));
    }
  }

  lemma ConcatThree(x: Str, y: Str, z: Str)
    ensures x + y + z == x + (y + z)
  {
  }

  lemma TailOfConcat(a: seq<Diff>, b: seq<Diff>)
    requires a != []
    ensures a + b != [] && (a + b)[0] == a[0] && (a + b)[1..] == a[1..] + b
  {
  }

  lemma {:induction false} EditLengthConcat(a: seq<Diff>, b: seq<Diff>)
    ensures EditLength(a + b) == EditLength(a) + EditLength(b)
  {
    if a == [] {
      assert a + b == b;
    } else {
      EditLengthConcat(a[1..], b);
      assert (a + b)[1..] == a[1..] + b;
    }
  }

  /** Exchanging a stretch of a script for another one between the same texts. */
  lemma Exchange(pre: seq<Diff>, old0: seq<Diff>, new0: seq<Diff>, post: seq<Diff>)
    requires Same(old0, new0)
    ensures Same(pre + old0 + post, pre + new0 + post)
  {
    Sides3(pre, old0, post);
    Sides3(pre, new0, post);
  }

  lemma Sides3(pre: seq<Diff>, mid: seq<Diff>, post: seq<Diff>)
    ensures Text1(pre + mid + post) == Text1(pre) + Text1(mid) + Text1(post)
    ensures Text2(pre + mid + post) == Text2(pre) + Text2(mid) + Text2(post)
    ensures EditLength(pre + mid + post) == EditLength(pre) + EditLength(mid) + EditLength(post)
  {
    SideConcat(pre + mid, post, Insert);
    SideConcat(pre, mid, Insert);
    SideConcat(pre + mid, post, Delete);
    SideConcat(pre, mid, Delete);
    EditLengthConcat(pre + mid, post);
    EditLengthConcat(pre, mid);
  }

  lemma SideOfOne(d: Diff, skip: Op)
    ensures Side([d], skip) == if d.op == skip then [] else d.text
    ensures EditLength([d]) == if d.op == Equal then 0 else |d.text|
  {
    assert [d][1..] == [];
  }

  lemma SideOfTwo(d: Diff, e: Diff, skip: Op)
    ensures Side([d, e], skip) == (if d.op == skip then [] else d.text) + (if e.op == skip then [] else e.text)
    ensures EditLength([d, e]) == (if d.op == Equal then 0 else |d.text|) + (if e.op == Equal then 0 else |e.text|)
  {
    assert [d, e][1..] == [e];
    SideOfOne(e, skip);
  }

  lemma SideOfThree(d: Diff, e: Diff, f: Diff, skip: Op)
    ensures Side([d, e, f], skip) == (if d.op == skip then [] else d.text)
                                     + (if e.op == skip then [] else e.text)
                                     + (if f.op == skip then [] else f.text)
    ensures EditLength([d, e, f]) == (if d.op == Equal then 0 else |d.text|)
                                     + (if e.op == Equal then 0 else |e.text|)
                                     + (if f.op == Equal then 0 else |f.text|)
  {
    assert [d, e, f][1..] == [e, f];
    SideOfTwo(e, f, skip);
  }

  /** The total length of the parts of one kind. */
  function OpLength(a: seq<Diff>, op: Op): nat {
    if a == [] then 0 else (if a[0].op == op then |a[0].text| else 0) + OpLength(a[1..], op)
  }

  lemma {:induction false} OpLengthConcat(a: seq<Diff>, b: seq<Diff>, op: Op)
    ensures OpLength(a + b, op) == OpLength(a, op) + OpLength(b, op)
  {
    if a == [] {
      assert a + b == b;
    } else {
      OpLengthConcat(a[1..], b, op);
      TailOfConcat(a, b);
    }
  }

  lemma OpLengthOfOne(d: Diff, op: Op)
    ensures OpLength([d], op) == if d.op == op then |d.text| else 0
  {
    assert [d][1..] == [];
  }

  /** What is kept, deleted and inserted makes up the two texts and the edits. */
  lemma {:induction false} LengthsAdd(a: seq<Diff>)
    ensures |Text1(a)| == OpLength(a, Equal) + OpLength(a, Delete)
    ensures |Text2(a)| == OpLength(a, Equal) + OpLength(a, Insert)
    ensures EditLength(a) == OpLength(a, Delete) + OpLength(a, Insert)
  {
    if a != [] {
      LengthsAdd(a[1..]);
    }
  }

  lemma {:induction false} NoneOfKind(a: seq<Diff>, op: Op)
    requires OpLength(a, op) == 0
    ensures forall i :: 0 <= i < |a| && a[i].op == op ==> a[i].text == []
  {
    if a != [] {
      NoneOfKind(a[1..], op);
    }
  }
}
