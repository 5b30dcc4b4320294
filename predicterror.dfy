/** The error excerpt the repair loop hands to the diagnosis and fix
    prompts (`parse_cog_predict_error` in autocog/autocog.py): the part of
    the prediction's stderr after the "Running prediction..." line, cut at
    the first Go `panic: `, and then its tail. */
module PredictError {
  import opened Wrappers
  import opened Strings

  const RunningPrediction: string := "Running prediction...\n"
  const Panic: string := "panic: "
  /** The default `max_length`. */
  const DefaultMaxLength: int := 20000

  /** The text the error comes from: the section between the first and the
      second "Running prediction..." line when there is one, else all of
      stderr. */
  function Section(stderr: string): (r: string)
    ensures Contains(stderr, RunningPrediction) ==>
      exists i: nat :: i + |RunningPrediction| <= |stderr| && FirstOccurrence(stderr, RunningPrediction, i) &&
        r == SplitFirst(stderr[i + |RunningPrediction|..], RunningPrediction)
    ensures !Contains(stderr, RunningPrediction) ==> r == stderr
  {
    match SplitSecond(stderr, RunningPrediction)
    case Some(section) => section
    case None => stderr
  }

  /** The section up to its first `panic: `. */
  function ErrorSegment(stderr: string): (r: string)
    ensures r <= Section(stderr) && !Contains(r, Panic)
    ensures Contains(Section(stderr), Panic) ==> r + Panic <= Section(stderr)
    ensures !Contains(Section(stderr), Panic) ==> r == Section(stderr)
  {
    SplitFirst(Section(stderr), Panic)
  }

  /** `parse_cog_predict_error(stderr, max_length=maxLength)`: the segment
      sliced as `error[-max_length:]`. */
  function ParseCogPredictError(stderr: string, maxLength: int): (r: string)
    ensures EndsWith(ErrorSegment(stderr), r)
    ensures maxLength > 0 ==> |r| == if |ErrorSegment(stderr)| < maxLength then |ErrorSegment(stderr)| else maxLength
    ensures maxLength == 0 ==> r == ErrorSegment(stderr)
    ensures !Contains(r, Panic)
  {
    var error := ErrorSegment(stderr);
    var k := PyIndex(|error|, -maxLength);
    AbsentFromInfix(error, Panic, k, |error|);
    assert error[k..|error|] == error[k..];
    Drop(error, -maxLength)
  }

  /** The section is an infix of stderr, starting at `off`. */
  lemma SectionAt(stderr: string) returns (off: nat)
    ensures off + |Section(stderr)| <= |stderr|
    ensures stderr[off..off + |Section(stderr)|] == Section(stderr)
  {
    off := 0;
    if Contains(stderr, RunningPrediction) {
      var sec := Section(stderr);
      var k: nat :| k + |RunningPrediction| <= |stderr| && FirstOccurrence(stderr, RunningPrediction, k) &&
        sec == SplitFirst(stderr[k + |RunningPrediction|..], RunningPrediction);
      off := k + |RunningPrediction|;
      assert Section(stderr) <= stderr[off..];
    }
  }

  /** A suffix of a prefix of an infix is an infix. */
  lemma InfixOfInfix(s: string, off: nat, sec: string, seg: string, r: string)
    requires off + |sec| <= |s| && s[off..off + |sec|] == sec
    requires seg <= sec && |r| <= |seg| && r == seg[|seg| - |r|..]
    ensures OccursAt(s, r, off + |seg| - |r|)
  {
    var i := off + |seg| - |r|;
    forall m | 0 <= m < |r|
      ensures s[i + m] == r[m]
    {
      assert r[m] == seg[|seg| - |r| + m] == sec[|seg| - |r| + m];
      assert s[off..off + |sec|][|seg| - |r| + m] == s[i + m];
    }
    assert s[i..i + |r|] == r;
  }

  /** The excerpt is a piece of stderr itself. */
  lemma ExcerptInStderr(stderr: string, maxLength: int)
    ensures exists i: nat :: i <= |stderr| && OccursAt(stderr, ParseCogPredictError(stderr, maxLength), i)
  {
    var off := SectionAt(stderr);
    var seg, r := ErrorSegment(stderr), ParseCogPredictError(stderr, maxLength);
    InfixOfInfix(stderr, off, Section(stderr), seg, r);
    assert OccursAt(stderr, r, off + |seg| - |r|);
  }
}
