/** The one reviewed working-tree export: a text whose every LF became CR LF. */
module EolExport {
  import opened Bytes

  /** bytes.replace(CR LF, LF) */
  function DropCr(s: bytes): bytes {
    if |s| >= 2 && s[0] == CR && s[1] == LF then [LF] + DropCr(s[2..])
    else if s == [] then []
    else [s[0]] + DropCr(s[1..])
  }

  /** bytes.replace(LF, CR LF) */
  function AddCr(s: bytes): bytes {
    if s == [] then []
    else (if s[0] == LF then [CR, LF] else [s[0]]) + AddCr(s[1..])
  }

  /** bytes.count(LF) */
  function Newlines(s: bytes): nat {
    if s == [] then 0 else (if s[0] == LF then 1 else 0) + Newlines(s[1..])
  }

  /** The three byte tests applied to an exported file. */
  predicate UniformCrlf(exported: bytes) {
    var canonical := DropCr(exported);
    CR !in canonical && LF in canonical && AddCr(canonical) == exported
  }

  /** exported is the CRLF spelling of an LF text. */
  predicate Expands(text: bytes, exported: bytes) {
    CR !in text && LF in text && exported == AddCr(text)
  }

  lemma {:induction false} DropAfterAdd(text: bytes)
    requires CR !in text
    ensures DropCr(AddCr(text)) == text
  {
    if text != [] {
      DropAfterAdd(text[1..]);
      assert text == [text[0]] + text[1..];
      var rest := AddCr(text[1..]);
      if text[0] == LF {
        assert ([CR, LF] + rest)[2..] == rest;
      } else {
        assert ([text[0]] + rest)[1..] == rest;
      }
    }
  }

  lemma {:induction false} AddCrLength(text: bytes)
    ensures |AddCr(text)| == |text| + Newlines(text)
  {
    if text != [] {
      AddCrLength(text[1..]);
    }
  }

  /** The tests hold exactly of expansions. The text is then unique, it is what the verifier
      computes, and the lengths differ by the number of converted newlines. */
  lemma UniformCrlfExact(exported: bytes)
    ensures UniformCrlf(exported) <==> exists text :: Expands(text, exported)
    ensures forall text :: Expands(text, exported) ==>
              text == DropCr(exported) && |exported| == |text| + Newlines(text)
  {
    if UniformCrlf(exported) {
      assert Expands(DropCr(exported), exported);
    }
    forall text | Expands(text, exported)
      ensures text == DropCr(exported) && |exported| == |text| + Newlines(text)
    {
      DropAfterAdd(text);
      AddCrLength(text);
    }
  }
}
