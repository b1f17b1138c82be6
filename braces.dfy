/** `extractBracedBlock` (sketch.js:1849-1866): the text from a start index up to and including
    the `}` that brings the brace depth back to zero, where braces between a quote and the next
    quote do not count. The shader set-up uses it to cut each kernel's body out of the WGSL
    source (sketch.js:1837). */
module Braces {

  /** The scanner's state: brace depth and whether a quote is open. */
  datatype ScanState = ScanState(depth: int, inString: bool)

  /** One character: a quote of either kind toggles the quote state; outside quotes an opening
      brace deepens and a closing brace lifts the depth; anything else is kept as it is. */
  function StepChar(s: ScanState, c: char): (r: ScanState)
    ensures (c == '"' || c == '\'') ==> r == s.(inString := !s.inString)
    ensures !(c == '"' || c == '\'') ==> r.inString == s.inString
    ensures !(c == '"' || c == '\'') && !s.inString ==>
      r.depth == s.depth + (if c == '{' then 1 else if c == '}' then -1 else 0)
    ensures !(c == '"' || c == '\'') && s.inString ==> r == s
  {
    if c == '"' || c == '\'' then s.(inString := !s.inString)
    else if !s.inString && c == '{' then s.(depth := s.depth + 1)
    else if !s.inString && c == '}' then s.(depth := s.depth - 1)
    else s
  }

  /** The state after scanning `text` from depth 0 outside quotes. */
  function Scan(text: string): ScanState {
    if |text| == 0 then ScanState(0, false)
    else StepChar(Scan(text[..|text| - 1]), text[|text| - 1])
  }

  /** `text` ends with a closing brace, outside quotes, that brings the depth to zero: the
      scanner stops right after it. */
  predicate ClosesAt(text: string) {
    |text| > 0 && text[|text| - 1] == '}' && !Scan(text[..|text| - 1]).inString
    && Scan(text).depth == 0
  }

  /** `block` is what the scanner returns on `text`: a prefix of it that is the shortest one
      closing the block, or all of `text` when no prefix closes it. */
  predicate IsBlock(text: string, block: string) {
    block <= text
    && (ClosesAt(block) || block == text)
    && forall k :: 0 < k < |block| ==> !ClosesAt(block[..k])
  }

  /** Of two prefixes of the same text, the shorter is a prefix of the longer. */
  lemma PrefixOfPrefix(text: string, p: string, b: string)
    ensures p <= text && b <= text && |p| <= |b| ==> b[..|p|] == p
  {
  }

  /** No prefix that closes the block is shorter than the block. */
  lemma BlockIsShortest(text: string, b: string, p: string)
    requires IsBlock(text, b) && p <= text && ClosesAt(p)
    ensures |b| <= |p|
  {
    if |p| < |b| {
      PrefixOfPrefix(text, p, b);
      assert false;
    }
  }

  /** There is only one such prefix, so `IsBlock` pins the result down. */
  lemma IsBlockUnique(text: string, b1: string, b2: string)
    requires IsBlock(text, b1) && IsBlock(text, b2)
    ensures b1 == b2
  {
    if ClosesAt(b1) {
      BlockIsShortest(text, b2, b1);
    }
    if ClosesAt(b2) {
      BlockIsShortest(text, b1, b2);
    }
    PrefixOfPrefix(text, b1, b2);
  }

  /** No non-empty prefix of `r`, `r` itself included, closes the block. */
  ghost predicate NoClose(r: string) {
    forall k :: 0 < k <= |r| ==> !ClosesAt(r[..k])
  }

  /** Appending a character extends the scan by one step. */
  lemma ScanSnoc(before: string, c: char)
    ensures (before + [c])[..|before|] == before
    ensures Scan(before + [c]) == StepChar(Scan(before), c)
  {
    assert (before + [c])[..|before|] == before;
  }

  /** The prefixes of `before + [c]` up to `before` are those of `before`. */
  lemma PrefixesOfSnoc(before: string, c: char)
    requires NoClose(before)
    ensures forall k :: 0 < k < |before + [c]| ==> !ClosesAt((before + [c])[..k])
  {
    forall k | 0 < k < |before + [c]|
      ensures !ClosesAt((before + [c])[..k])
    {
      assert (before + [c])[..k] == before[..k];
    }
  }

  /** A character that does not close the block keeps every prefix open. */
  lemma NoCloseSnoc(before: string, c: char)
    requires NoClose(before) && !ClosesAt(before + [c])
    ensures NoClose(before + [c])
  {
    PrefixesOfSnoc(before, c);
    assert (before + [c])[..|before + [c]|] == before + [c];
  }

  /** The scan from `startIndex`: each character is appended before it is looked at, and the
      loop stops after the brace that closes the block or at the end of `code`. */
  method ExtractBracedBlock(code: string, startIndex: nat) returns (result: string)
    ensures startIndex >= |code| ==> result == ""
    ensures startIndex < |code| ==> IsBlock(code[startIndex..], result)
  {
    var depth := 0;
    var inString := false;
    result := "";
    var i := startIndex;
    while i < |code|
      invariant i == startIndex + |result|
      invariant startIndex >= |code| ==> result == ""
      invariant startIndex < |code| ==> i <= |code| && result == code[startIndex..i]
      invariant ScanState(depth, inString) == Scan(result)
      invariant NoClose(result)
    {
      var c := code[i];
      ghost var before := result;
      result := result + [c];
      ScanSnoc(before, c);
      assert code[startIndex..i + 1] == code[startIndex..i] + [c];
      if c == '"' || c == '\'' {
        inString := !inString;
      } else if !inString && c == '{' {
        depth := depth + 1;
      } else if !inString && c == '}' {
        depth := depth - 1;
        if depth == 0 {
          PrefixesOfSnoc(before, c);
          break;
        }
      }
      NoCloseSnoc(before, c);
      i := i + 1;
    }
    if startIndex < |code| && !ClosesAt(result) {
      assert i == |code|;
      assert forall k :: 0 < k < |result| ==> !ClosesAt(result[..k]);
    }
  }

  /** Nested braces: the block runs to the brace matching the first one. */
  lemma NestedExample()
    ensures IsBlock("{{}}x", "{{}}")
  {
    var t := "{{}}";
    assert Scan(t[..1]) == ScanState(1, false);
    assert t[..2][..1] == t[..1];
    assert Scan(t[..2]) == ScanState(2, false);
    assert t[..3][..2] == t[..2];
    assert Scan(t[..3]) == ScanState(1, false);
    assert Scan(t) == ScanState(0, false);
  }

  /** A brace between quotes does not close the block. */
  lemma QuotedExample()
    ensures IsBlock("{'}'}x", "{'}'}")
  {
    var t := "{'}'}";
    assert Scan(t[..1]) == ScanState(1, false);
    assert t[..2][..1] == t[..1];
    assert Scan(t[..2]) == ScanState(1, true);
    assert t[..3][..2] == t[..2];
    assert Scan(t[..3]) == ScanState(1, true);
    assert t[..4][..3] == t[..3];
    assert Scan(t[..4]) == ScanState(1, false);
    assert Scan(t) == ScanState(0, false);
  }

  /** A closing brace before any opening one takes the depth below zero and does not stop the
      scan; with no block closing, the whole rest of the text comes back. */
  lemma UnclosedExample()
    ensures IsBlock("}{", "}{")
  {
    var t := "}{";
    assert Scan(t[..1]) == ScanState(-1, false);
    assert Scan(t) == ScanState(0, false);
  }
}
