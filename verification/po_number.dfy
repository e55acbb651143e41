/**
 * `process_po_number`: purchase-order numbers are ten digits long in the ERP, so the number the
 * user typed is zero-filled to ten characters before it is looked up.
 */
module PoNumber {
  import opened Text
  import opened Numeric
  import opened Wrappers

  const PoNumberWidth: nat := 10

  /**
   * What `process_po_number` returns: the number as typed, and the zero-filled number that the
   * lookup filter carries (the URL around it is not modelled).
   */
  datatype PoQuery = PoQuery(poNumber: string, paddedNumber: string)

  predicate AllDigits(s: string) {
    forall i :: 0 <= i < |s| ==> IsDigit(s[i])
  }

  function ProcessPoNumber(no: string): (q: PoQuery)
    ensures q.poNumber == no
    ensures |q.paddedNumber| == if |no| >= PoNumberWidth then |no| else PoNumberWidth
    ensures |no| >= PoNumberWidth ==> q.paddedNumber == no
    ensures ZFill(q.paddedNumber, PoNumberWidth) == q.paddedNumber
  {
    PoQuery(no, ZFill(no, PoNumberWidth))
  }

  /**
   * A number of digits is left-padded with '0' to exactly ten characters: the typed digits are
   * the padded number's tail, everything before them is '0', and its value does not change.
   */
  lemma PadDigits(no: string)
    requires AllDigits(no)
    ensures var padded := ProcessPoNumber(no).paddedNumber;
      && AllDigits(padded)
      && padded[|padded| - |no|..] == no
      && (forall i :: 0 <= i < |padded| - |no| ==> padded[i] == '0')
      && DigitsValue(padded) == DigitsValue(no)
  {
    var padded := ProcessPoNumber(no).paddedNumber;
    if |no| < PoNumberWidth {
      var zeros := Zeros(PoNumberWidth - |no|);
      if no == [] {
        assert padded == zeros;
      } else {
        assert padded == zeros + no;
      }
      assert padded == zeros + no;
      ZeroPadKeepsValue(PoNumberWidth - |no|, no);
    }
  }

  /** Padding keeps the number the user meant: cleaning the padded number gives the typed number's value. */
  lemma PadKeepsNumber(no: string)
    requires no != [] && AllDigits(no)
    ensures CleanNumeric(ProcessPoNumber(no).paddedNumber) == CleanNumeric(no) == Some(Decimal(DigitsValue(no), 0))
  {
    var padded := ProcessPoNumber(no).paddedNumber;
    PadDigits(no);
    DotFree(no);
    DotFree(padded);
    CleanWellFormed(no);
    CleanWellFormed(padded);
  }

  /** A leading sign stays in front of the zeros, as `str.zfill` does. */
  lemma SignedExample()
    ensures ProcessPoNumber("-42").paddedNumber == "-000000042"
  {
    assert Zeros(7) == "0000000";
  }
}
