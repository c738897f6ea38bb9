/** error_monitoring.cpp: which register values count as faults, and what is printed for them. */
module Errors {
  import opened Numeric
  import opened Joints

  /** extract_error_value; the cast to uint64 truncates. */
  function ExtractErrorValue(x: Num): Option<int> {
    if !x.Fin? || x.r < 0.0 || x.r.Floor == 0 then None else Some(x.r.Floor)
  }

  predicate Faulty(r: Registers) {
    || ExtractErrorValue(r.axis).Some?
    || ExtractErrorValue(r.motor).Some?
    || ExtractErrorValue(r.encoder).Some?
    || ExtractErrorValue(r.controller).Some?
  }

  /** A register is read as int32, so exactly the words 1 .. 2^31-1 count as a fault; a word with
      bit 31 set makes the joint unhealthy without being a fault. */
  lemma FaultWords(word: int)
    requires 0 <= word < 0x1_0000_0000
    ensures var x := Fin(ToInt32(word) as real);
            && (ExtractErrorValue(x).Some? <==> 0 < word < 0x8000_0000)
            && (ExtractErrorValue(x).Some? ==> ExtractErrorValue(x).value == word)
            && (Same(x, ZERO) <==> word == 0)
            && (!Same(x, ZERO) && ExtractErrorValue(x).None? <==> word >= 0x8000_0000)
  {
    var i := ToInt32(word);
    assert (i as real).Floor == i;
  }
}
