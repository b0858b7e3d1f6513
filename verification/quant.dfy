/**
 The quant-willingness classifier (`quant_bucket` in allocator1.py and
 allocator2.py). The survey cell is either text or a non-text value (a
 blank cell arrives as a float NaN); the classifier is total over both.
 */
module Quant {
  import opened Strings

  /** A raw survey cell: text, or anything that is not a string. */
  datatype Answer = Text(text: string) | NotText

  /** The three willingness buckets. */
  datatype Bucket = Strict | CanDo | Never

  /** Signal of "Yes, I would strictly prefer it". */
  const StrictSignal: string := "strictly prefer"
  /** Signal of "I can do it if unavoidable". */
  const CanDoSignal: string := "unavoidable"

  /** Ordered substring precedence: the STRICT signal is tested first, then
      the CAN_DO signal; everything else, non-text included, is NEVER. */
  function QuantBucket(a: Answer): (b: Bucket)
    ensures b == Strict <==> a.Text? && Occurs(StrictSignal, a.text)
    ensures b == CanDo <==> a.Text? && !Occurs(StrictSignal, a.text) && Occurs(CanDoSignal, a.text)
    ensures b == Never <==> !a.Text? || (!Occurs(StrictSignal, a.text) && !Occurs(CanDoSignal, a.text))
  {
    if a.Text? && Contains(a.text, StrictSignal) then Strict
    else if a.Text? && Contains(a.text, CanDoSignal) then CanDo
    else Never
  }

  /** A text holding both signals is STRICT: the precedence settles the overlap. */
  lemma StrictWinsOverlap(t: string)
    requires Occurs(StrictSignal, t) && Occurs(CanDoSignal, t)
    ensures QuantBucket(Text(t)) == Strict
  {
  }

  /** The answer offered for "strictly prefer" is STRICT. */
  lemma StrictAnswerClassified()
    ensures QuantBucket(Text("Yes, I would strictly prefer it")) == Strict
  {
    assert OccursAt(StrictSignal, "Yes, I would strictly prefer it", 13);
  }

  /** The answer offered for "if unavoidable" is CAN_DO. */
  lemma CanDoAnswerClassified()
    ensures QuantBucket(Text("I can do it if unavoidable")) == CanDo
  {
    assert OccursAt(CanDoSignal, "I can do it if unavoidable", 15);
    assert StrictSignal[0] !in "I can do it if unavoidable";
    OccursHasChars(StrictSignal, "I can do it if unavoidable", 0);
  }

  /** The refusal, the empty answer and a non-text cell are all NEVER. */
  lemma NeverAnswersClassified()
    ensures QuantBucket(Text("Never, please.")) == Never
    ensures QuantBucket(Text("")) == Never
    ensures QuantBucket(NotText) == Never
  {
    assert StrictSignal[1] !in "Never, please.";
    OccursHasChars(StrictSignal, "Never, please.", 1);
    assert CanDoSignal[0] !in "Never, please.";
    OccursHasChars(CanDoSignal, "Never, please.", 0);
  }

  /** Every character of an occurring `sub` is a character of `s`. */
  lemma OccursHasChars(sub: string, s: string, k: nat)
    requires k < |sub|
    ensures Occurs(sub, s) ==> sub[k] in s
  {
    if Occurs(sub, s) {
      var i :| OccursAt(sub, s, i);
      assert s[i..i + |sub|][k] == s[i + k];
    }
  }
}
