/** The snapshot file name derived from a timestamp (gen_filename). The clock
    read is replaced by the timestamp text, `str(datetime.now())`, given as a
    parameter. */
module Collector {

  /** The characters replaced by `_`, in the order the loop visits them. */
  const SEPARATORS: seq<char> := ['-', ':', ' ']
  const EXTENSION := ".pickle"

  /** split(".")[0]: everything before the first `.`, or the whole text. */
  function BeforeFirstDot(s: string): (r: string)
    ensures r <= s
    ensures '.' !in r
    ensures |r| < |s| ==> s[|r|] == '.'
  {
    if s == [] || s[0] == '.' then [] else [s[0]] + BeforeFirstDot(s[1..])
  }

  /** str.replace for a single character: each occurrence of `from` becomes `to`. */
  function ReplaceChar(s: string, from: char, to: char): (r: string)
    ensures |r| == |s|
    ensures forall i | 0 <= i < |s| :: r[i] == if s[i] == from then to else s[i]
  {
    if s == [] then [] else [if s[0] == from then to else s[0]] + ReplaceChar(s[1..], from, to)
  }

  /** The reference meaning of the replacement loop, character by character. */
  function Sanitized(s: string): (r: string)
    ensures |r| == |s|
  {
    seq(|s|, i requires 0 <= i < |s| => if s[i] in SEPARATORS then '_' else s[i])
  }

  /** The name gen_filename produces for a timestamp: the part before the
      first `.`, with every separator replaced by `_`, then the extension. */
  function Filename(now: string): string {
    Sanitized(BeforeFirstDot(now)) + EXTENSION
  }

  /** gen_filename, with its loop over the separators. */
  method GenFilename(now: string) returns (filename: string)
    ensures filename == Filename(now)
  {
    var timestamp := BeforeFirstDot(now);
    ghost var prefix := timestamp;
    for k := 0 to |SEPARATORS|
      invariant |timestamp| == |prefix|
      invariant forall i | 0 <= i < |prefix| ::
        timestamp[i] == if prefix[i] in SEPARATORS[..k] then '_' else prefix[i]
    {
      assert SEPARATORS[..k + 1] == SEPARATORS[..k] + [SEPARATORS[k]];
      timestamp := ReplaceChar(timestamp, SEPARATORS[k], '_');
    }
    assert SEPARATORS[..|SEPARATORS|] == SEPARATORS;
    filename := timestamp + EXTENSION;
  }

  /** The name is a stem followed by `.pickle`; the stem is the timestamp up
      to its first `.`, as long as it, with separators turned into `_` and
      every other character kept in place. */
  lemma FilenameShape(now: string)
    ensures var name := Filename(now);
            var stem := name[..|name| - |EXTENSION|];
            var prefix := BeforeFirstDot(now);
            && name[|name| - |EXTENSION|..] == EXTENSION
            && |stem| == |prefix|
            && (forall i | 0 <= i < |stem| :: stem[i] == if prefix[i] in SEPARATORS then '_' else prefix[i])
            && (forall i | 0 <= i < |stem| :: stem[i] !in SEPARATORS && stem[i] != '.')
  {
  }

  /** Running the replacements over an already processed stem changes nothing. */
  lemma SanitizedIdempotent(s: string)
    ensures Sanitized(Sanitized(s)) == Sanitized(s)
  {
  }

  /** The prefix is exactly the text before the first `.`. */
  lemma {:induction false} BeforeFirstDotSplit(head: string, tail: string)
    requires '.' !in head
    ensures BeforeFirstDot(head + ['.'] + tail) == head
  {
    var s := head + ['.'] + tail;
    if head != [] {
      assert s[1..] == head[1..] + ['.'] + tail;
      BeforeFirstDotSplit(head[1..], tail);
    }
  }

  /** A timestamp in the format `str(datetime.now())` produces. */
  lemma Example(now: string)
    requires now == "2018-06-01 12:34:56.789012"
    ensures Filename(now) == "2018_06_01_12_34_56.pickle"
  {
    var head, tail := "2018-06-01 12:34:56", "789012";
    assert BeforeFirstDot(now) == head by {
      assert now == head + ['.'] + tail;
      BeforeFirstDotSplit(head, tail);
    }
    assert Sanitized(head) == "2018_06_01_12_34_56" by {
      var stem := Sanitized(head);
      assert forall i | 0 <= i < 19 :: stem[i] == "2018_06_01_12_34_56"[i];
    }
  }
}
