/** The tail of a dump, kept while it is written, and the check for its
    completion marker. */
module DumpTail {
  const TAIL_KEEP := 4096

  /** The last n characters, or all of them. */
  function Last(s: string, n: nat): (r: string)
    ensures |r| == if |s| < n then |s| else n
    ensures r == s[|s| - |r|..]
  {
    if |s| <= n then s else s[|s|-n..]
  }

  ghost predicate OccursAt(text: string, marker: string, i: int) {
    0 <= i <= |text| - |marker| && text[i..i+|marker|] == marker
  }

  ghost predicate Contains(text: string, marker: string) {
    exists i :: OccursAt(text, marker, i)
  }

  /** tailWriter: passes writes through and keeps the end of what went through. */
  class TailWriter {
    var tail: string
    ghost var written: string

    ghost predicate Valid()
      reads this
    {
      tail == Last(written, TAIL_KEEP)
    }

    constructor ()
      ensures Valid() && written == ""
    {
      tail, written := "", "";
    }

    /** `n` is how much of p the underlying writer took. */
    method Write(p: string, n: nat)
      requires Valid() && n <= |p|
      modifies this
      ensures Valid() && written == old(written) + p[..n]
    {
      tail := tail + p[..n];
      if |tail| > TAIL_KEEP {
        tail := tail[|tail|-TAIL_KEEP..];
      }
      written := written + p[..n];
    }
  }

  /** However it was chunked, a dump passes the check exactly if the marker lies
      within its last 4096 characters. In particular one that lacks it fails. */
  lemma CompleteExactly(written: string, marker: string)
    ensures Contains(Last(written, TAIL_KEEP), marker)
            <==> exists i :: OccursAt(written, marker, i) && i >= |written| - 4096
  {
    var tail := Last(written, TAIL_KEEP);
    var cut := |written| - |tail|;
    forall i: int | 0 <= i <= |tail| - |marker| ensures OccursAt(tail, marker, i) <==> OccursAt(written, marker, i + cut) {
      assert tail[i..i+|marker|] == written[i+cut..i+cut+|marker|];
    }
    if Contains(tail, marker) {
      var i :| OccursAt(tail, marker, i);
      assert OccursAt(written, marker, i + cut);
    }
    if i :| OccursAt(written, marker, i) && i >= |written| - TAIL_KEEP {
      assert OccursAt(tail, marker, i - cut);
    }
  }
}
