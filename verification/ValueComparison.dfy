/** Comparing a sysfs value with a captured one while it is read piece by piece. */
module ValueComparison {

  /** What the pieces read so far amount to. */
  function Contents(chunks: seq<string>): string {
    if chunks == [] then "" else Contents(chunks[..|chunks| - 1]) + chunks[|chunks| - 1]
  }

  /** A captured value: the text without its one trailing newline. */
  function Captured(text: string): string {
    if text != "" && text[|text| - 1] == '\n' then text[..|text| - 1] else text
  }

  /** How far a text may have got: part of the expected value, or all of it and one newline. */
  ghost predicate Matching(text: string, expected: string, matched: nat, newlineSeen: bool) {
    && matched <= |expected|
    && (newlineSeen ==> matched == |expected|)
    && text == expected[..matched] + if newlineSeen then "\n" else ""
  }

  /** No continuation of this text can be the expected value, with or without a newline. */
  ghost predicate Hopeless(text: string, expected: string) {
    !(text <= expected) && !(text <= expected + "\n")
  }

  /** One piece: either it continues the match, or nothing that follows can repair it. */
  method MatchChunk(chunk: string, expected: string, matched: nat, newlineSeen: bool, ghost before: string)
    returns (ok: bool, matched': nat, newlineSeen': bool)
    requires Matching(before, expected, matched, newlineSeen)
    ensures ok ==> Matching(before + chunk, expected, matched', newlineSeen')
    ensures !ok ==> Hopeless(before + chunk, expected)
  {
    matched', newlineSeen' := matched, newlineSeen;
    assert before + chunk[..0] == before;
    for i := 0 to |chunk|
      invariant Matching(before + chunk[..i], expected, matched', newlineSeen')
    {
      var byte := chunk[i];
      ghost var text := before + chunk[..i];
      assert before + chunk[..i + 1] == text + [byte];
      if matched' < |expected| {
        if byte != expected[matched'] {
          Diverges(text, byte, before + chunk, expected, matched', newlineSeen');
          return false, matched', newlineSeen';
        }
        matched' := matched' + 1;
      } else {
        if newlineSeen' || byte != '\n' {
          Diverges(text, byte, before + chunk, expected, matched', newlineSeen');
          return false, matched', newlineSeen';
        }
        newlineSeen' := true;
      }
    }
    assert chunk[..|chunk|] == chunk;
    ok := true;
  }

  lemma Diverges(text: string, byte: char, whole: string, expected: string, matched: nat, newlineSeen: bool)
    requires Matching(text, expected, matched, newlineSeen) && text + [byte] <= whole
    requires if matched < |expected| then byte != expected[matched] else newlineSeen || byte != '\n'
    ensures Hopeless(whole, expected)
  {
    var n := |text|;
    assert whole[n] == (text + [byte])[n] == byte;
    var longer := expected + "\n";
    assert n < |expected| ==> longer[n] == expected[n] != byte;
    assert n == |expected| ==> longer[n] == '\n' != byte;
    assert |whole| > n;
  }

  /** `read_configuration_value_equals`, over whatever pieces the reads return. */
  method ReadEquals(chunks: seq<string>, expected: string) returns (equal: bool)
    ensures equal <==> Contents(chunks) == expected || Contents(chunks) == expected + "\n"
  {
    var matched, newlineSeen := 0, false;
    for n := 0 to |chunks|
      invariant Matching(Contents(chunks[..n]), expected, matched, newlineSeen)
    {
      var ok;
      assert chunks[..n + 1][..n] == chunks[..n];
      ok, matched, newlineSeen := MatchChunk(chunks[n], expected, matched, newlineSeen, Contents(chunks[..n]));
      if !ok {
        PrefixOfContents(chunks, n + 1);
        return false;
      }
    }
    assert chunks[..|chunks|] == chunks;
    equal := matched == |expected|;
  }

  lemma {:induction false} PrefixOfContents(chunks: seq<string>, n: nat)
    requires n <= |chunks|
    ensures Contents(chunks[..n]) <= Contents(chunks)
    decreases |chunks| - n
  {
    if n < |chunks| {
      PrefixOfContents(chunks, n + 1);
      assert chunks[..n + 1][..n] == chunks[..n];
    } else {
      assert chunks[..n] == chunks;
    }
  }

  /** The comparison and a fresh capture agree, except on a value that itself ends in a newline
      and is found without a further one. */
  lemma ComparisonAgreesWithCapture(text: string, expected: string)
    ensures (text == expected || text == expected + "\n") <==>
              Captured(text) == expected || (text == expected && expected != "" && expected[|expected| - 1] == '\n')
  {
    if text == expected + "\n" { assert text[..|text| - 1] == expected; }
    if text != "" && text[|text| - 1] == '\n' { assert text == text[..|text| - 1] + "\n"; }
  }

  /** Captured from two newlines and later found with one, a value passes the comparison although
      a fresh capture is another. */
  lemma NewlineGoesUnnoticed()
    ensures var captured, later := Captured("a\n\n"), Contents(["a\n"]);
            (later == captured || later == captured + "\n") && Captured(later) != captured
  {
    assert Contents([]) == "" && ["a\n"][..0] == [];
    assert Contents(["a\n"]) == "" + "a\n";
    assert "a\n\n"[..2] == "a\n" && "a\n"[..1] == "a";
  }

  /** In particular a value always equals its own capture. */
  lemma ValueEqualsItsCapture(text: string)
    ensures text == Captured(text) || text == Captured(text) + "\n"
  {
    ComparisonAgreesWithCapture(text, Captured(text));
  }
}
