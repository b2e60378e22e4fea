/** Replacing a range of a document, and the inverse of a replacement. */
module Changes {
  import opened Text

  /** Replace the text between `from` and `to` by `text`. */
  datatype Change = Change(from: Pos, to: Pos, text: Lines)

  predicate ValidChange(d: Lines, c: Change) {
    ValidPos(d, c.from) && ValidPos(d, c.to) && Leq(c.from, c.to)
  }

  /** What a change means: the text before it, the new text, the text after it. */
  function Apply(d: Lines, c: Change): Lines
    requires ValidChange(d, c)
  {
    Glue(Glue(Before(d, c.from), c.text), After(d, c.to))
  }

  /** The end of the inserted text, in the changed document. */
  function ChangeEnd(c: Change): Pos {
    Pos(c.from.line + |c.text| - 1, |Last(c.text)| + if |c.text| == 1 then c.from.ch else 0)
  }

  /** The change that takes `Apply(d, c)` back to `d`. */
  function Invert(d: Lines, c: Change): Change
    requires ValidChange(d, c)
  {
    Change(c.from, ChangeEnd(c), Between(d, c.from, c.to))
  }

  lemma ChangeEndIsEndOfInsertion(d: Lines, c: Change)
    requires ValidChange(d, c)
    ensures ChangeEnd(c) == EndOf(Glue(Before(d, c.from), c.text))
  {
  }

  /** After a change the inserted text is what stands between `from` and the change end, and
      the text on either side is untouched. */
  lemma ApplyReadsBack(d: Lines, c: Change)
    requires ValidChange(d, c)
    ensures var r := Apply(d, c);
            && ValidPos(r, c.from) && ValidPos(r, ChangeEnd(c)) && Leq(c.from, ChangeEnd(c))
            && Before(r, c.from) == Before(d, c.from)
            && Between(r, c.from, ChangeEnd(c)) == c.text
            && After(r, ChangeEnd(c)) == After(d, c.to)
  {
    ChangeEndIsEndOfInsertion(d, c);
    CutThenGlue(d, c.from);
    BetweenOfThree(Before(d, c.from), c.text, After(d, c.to));
  }

  lemma InvertUndoes(d: Lines, c: Change)
    requires ValidChange(d, c)
    ensures ValidChange(Apply(d, c), Invert(d, c))
    ensures Apply(Apply(d, c), Invert(d, c)) == d
    ensures Invert(Apply(d, c), Invert(d, c)) == c
  {
    ApplyReadsBack(d, c);
    CutInThree(d, c.from, c.to);
    CutThenGlue(d, c.to);
    var i := Invert(d, c);
    ChangeEndIsEndOfInsertion(Apply(d, c), i);
    assert Glue(Before(d, c.from), i.text) == Before(d, c.to);
  }

  /** Typing at the end of a recorded range: widening the record by the typed text makes it
      revert both the old change and the typing. */
  lemma WidenedRecordReverts(d: Lines, typed: Change, record: Change)
    requires ValidChange(d, record) && ValidChange(d, typed)
    requires typed.from == typed.to == record.to
    ensures var wide := record.(to := ChangeEnd(typed));
            ValidChange(Apply(d, typed), wide) && Apply(Apply(d, typed), wide) == Apply(d, record)
  {
    var x, m, y := Before(d, record.from), Between(d, record.from, record.to), After(d, record.to);
    CutInThree(d, record.from, record.to);
    CutThenGlue(d, record.from);
    ApplyReadsBack(d, typed);
    ChangeEndIsEndOfInsertion(d, typed);
    GlueAssociative(x, m, typed.text);
    assert Apply(d, typed) == Glue(Glue(x, Glue(m, typed.text)), y);
    BetweenOfThree(x, Glue(m, typed.text), y);
  }
}
