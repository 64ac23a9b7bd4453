/**
  TSPLIB 95 keywords both converters recognise, and the coordinate-mode flag
  both keep: it is switched on by the first line whose stripped text starts
  with NODE_COORD_SECTION and is never switched off again.
 */
module Tsplib {
  import opened Text

  const NodeCoordSection := "NODE_COORD_SECTION"
  const Eof := "EOF"

  /** Some line of `lines` starts, once stripped, with NODE_COORD_SECTION:
      the value of the coordinate-mode flag after reading `lines`. */
  predicate SectionSeen(lines: seq<string>)
  {
    lines != [] &&
    (SectionSeen(lines[..|lines| - 1]) || IsSectionLine(lines[|lines| - 1]))
  }

  predicate IsSectionLine(line: string) {
    StartsWith(Strip(line), NodeCoordSection)
  }

  /** The flag is on exactly when a section line has been read. */
  lemma {:induction false} SectionSeenIff(lines: seq<string>)
    ensures SectionSeen(lines) <==> exists k | 0 <= k < |lines| :: IsSectionLine(lines[k])
  {
    if lines != [] {
      var init := lines[..|lines| - 1];
      SectionSeenIff(init);
      if SectionSeen(lines) && SectionSeen(init) {
        var k :| 0 <= k < |init| && IsSectionLine(init[k]);
        assert lines[k] == init[k];
      }
      if exists k | 0 <= k < |lines| :: IsSectionLine(lines[k]) {
        var k :| 0 <= k < |lines| && IsSectionLine(lines[k]);
        if k < |init| {
          assert init[k] == lines[k];
        }
      }
    }
  }

  /** Once on, the flag stays on. */
  lemma {:induction false} SectionSeenStays(lines: seq<string>, i: nat, j: nat)
    requires i <= j <= |lines|
    requires SectionSeen(lines[..i])
    ensures SectionSeen(lines[..j])
  {
    if i < j {
      SectionSeenStays(lines, i, j - 1);
      var pre := lines[..j];
      assert pre[..|pre| - 1] == lines[..j - 1];
      assert SectionSeen(pre);
    }
  }

  /** EOF is a single token. */
  lemma EofIsOneToken()
    ensures Tokens(Eof) == [Eof]
  {
    assert IsWord(Eof) by {
      assert forall i | 0 <= i < |Eof| :: Eof[i] in "EOF";
    }
    TokensOfWord(Eof);
  }
}
