/** The front-matter scanner of refresh_tags.py: a two-state machine over
    the lines of one post. Outside, the first line containing `---` moves
    it inside; inside, every line is collected until the next line
    containing `---`, which ends the scan. The lines of a file are given
    as a sequence (each element may keep its trailing line feed). */
module FrontMatter {
  import opened Text

  /** The delimiter is matched as a substring, not as a whole line. */
  const Delimiter: string := "---"

  predicate IsDelimiter(line: string) {
    Contains(line, Delimiter)
  }

  /** Reference description of what the scan collects once inside at line
      `k`: everything from `k` up to, not including, the next delimiter
      line, or up to end of input when there is none. */
  function BlockFrom(lines: seq<string>, k: nat): seq<string>
    requires k <= |lines|
  {
    match FindFirst(lines, Delimiter, k)
    case None => lines[k..]
    case Some(j) => lines[k..j]
  }

  /** Reference description of the whole front matter: nothing when no line
      is a delimiter, otherwise the block after the first delimiter. */
  function DelimitedBlock(lines: seq<string>): seq<string> {
    match FindFirst(lines, Delimiter, 0)
    case None => []
    case Some(i) => BlockFrom(lines, i + 1)
  }

  /** The scan from line `k` on, `inside` being the machine's state there
      (refresh_tags.py:17-23). */
  function ScanFrom(lines: seq<string>, k: nat, inside: bool): seq<string>
    requires k <= |lines|
    decreases |lines| - k
  {
    if k == |lines| then []
    else if IsDelimiter(lines[k]) && !inside then ScanFrom(lines, k + 1, true)
    else if IsDelimiter(lines[k]) && inside then []
    else if inside then [lines[k]] + ScanFrom(lines, k + 1, true)
    else ScanFrom(lines, k + 1, false)
  }

  /** Inside at line `k`, the machine collects exactly the block up to the
      next delimiter line. */
  lemma {:induction false} InsideScanIsBlock(lines: seq<string>, k: nat)
    requires k <= |lines|
    ensures ScanFrom(lines, k, true) == BlockFrom(lines, k)
    decreases |lines| - k
  {
    if k < |lines| && !IsDelimiter(lines[k]) {
      InsideScanIsBlock(lines, k + 1);
      assert FindFirst(lines, Delimiter, k) == FindFirst(lines, Delimiter, k + 1);
      match FindFirst(lines, Delimiter, k + 1)
      case None =>
        assert lines[k..] == [lines[k]] + lines[k + 1..];
      case Some(j) =>
        assert lines[k..j] == [lines[k]] + lines[k + 1..j];
    }
  }

  /** Outside at line `k`, the machine collects the block after the next
      delimiter line, or nothing when there is none. */
  lemma {:induction false} OutsideScanIsBlock(lines: seq<string>, k: nat)
    requires k <= |lines|
    ensures ScanFrom(lines, k, false) == match FindFirst(lines, Delimiter, k)
                                         case None => []
                                         case Some(i) => BlockFrom(lines, i + 1)
    decreases |lines| - k
  {
    if k < |lines| {
      if IsDelimiter(lines[k]) {
        InsideScanIsBlock(lines, k + 1);
      } else {
        OutsideScanIsBlock(lines, k + 1);
      }
    }
  }

  /** The front matter of a post: the scan started outside at the first
      line. It is the block after the first delimiter line, and holds no
      delimiter line itself. */
  function Scan(lines: seq<string>): (fm: seq<string>)
    ensures fm == DelimitedBlock(lines)
    ensures forall i :: 0 <= i < |fm| ==> !IsDelimiter(fm[i])
  {
    OutsideScanIsBlock(lines, 0);
    ScanFrom(lines, 0, false)
  }

  /** Without any delimiter line, no front matter is collected. */
  lemma NoDelimiterNoFrontMatter(lines: seq<string>)
    requires forall k :: 0 <= k < |lines| ==> !IsDelimiter(lines[k])
    ensures Scan(lines) == []
  {
    assert FindFirst(lines, Delimiter, 0).None?;
  }

  /** With a single delimiter line, the front matter runs from the line
      after it to end of input. */
  lemma SingleDelimiterRunsToEnd(lines: seq<string>, i: nat)
    requires i < |lines| && IsDelimiter(lines[i])
    requires forall k :: 0 <= k < |lines| && k != i ==> !IsDelimiter(lines[k])
    ensures Scan(lines) == lines[i + 1..]
  {
    assert FindFirst(lines, Delimiter, 0) == Some(i);
    assert FindFirst(lines, Delimiter, i + 1).None?;
  }

  /** With delimiter lines at `i` and `j` and none other before `j`, the
      front matter is exactly the lines strictly between them. */
  lemma BlockBetweenDelimiters(lines: seq<string>, i: nat, j: nat)
    requires i < j < |lines| && IsDelimiter(lines[i]) && IsDelimiter(lines[j])
    requires forall k :: 0 <= k < j && k != i ==> !IsDelimiter(lines[k])
    ensures Scan(lines) == lines[i + 1..j]
  {
    assert FindFirst(lines, Delimiter, 0) == Some(i);
    assert FindFirst(lines, Delimiter, i + 1) == Some(j);
  }

  /** The front matter is a contiguous slice of the input, starting right
      after the first delimiter line and ending at the second one or at end
      of input; lines before the opener or after the closer never appear.
      The slice starts at 0 exactly when there is no delimiter line. */
  lemma FrontMatterIsSlice(lines: seq<string>) returns (lo: nat, hi: nat)
    ensures lo <= hi <= |lines|
    ensures Scan(lines) == lines[lo..hi]
    ensures lo > 0 ==> IsDelimiter(lines[lo - 1])
    ensures forall k :: 0 <= k < lo - 1 ==> !IsDelimiter(lines[k])
    ensures lo == 0 ==> hi == 0
    ensures lo == 0 <==> forall k :: 0 <= k < |lines| ==> !IsDelimiter(lines[k])
    ensures 0 < lo && hi < |lines| ==> IsDelimiter(lines[hi])
  {
    match FindFirst(lines, Delimiter, 0)
    case None =>
      lo, hi := 0, 0;
    case Some(i) =>
      lo := i + 1;
      match FindFirst(lines, Delimiter, i + 1)
      case None =>
        hi := |lines|;
        assert Scan(lines) == lines[lo..];
      case Some(j) =>
        hi := j;
        assert Scan(lines) == lines[lo..j];
  }

  /** One step of the machine at line `k`. */
  lemma ScanStep(lines: seq<string>, k: nat, inside: bool)
    requires k < |lines|
    ensures IsDelimiter(lines[k]) && !inside ==> ScanFrom(lines, k, inside) == ScanFrom(lines, k + 1, true)
    ensures IsDelimiter(lines[k]) && inside ==> ScanFrom(lines, k, inside) == []
    ensures !IsDelimiter(lines[k]) && inside ==>
              ScanFrom(lines, k, inside) == [lines[k]] + ScanFrom(lines, k + 1, true)
    ensures !IsDelimiter(lines[k]) && !inside ==> ScanFrom(lines, k, inside) == ScanFrom(lines, k + 1, false)
  {
  }

  /** The scanner loop as written in refresh_tags.py:14-23, with its `inside`
      flag and its early `break`. */
  method CollectFrontMatter(lines: seq<string>) returns (fm: seq<string>)
    ensures fm == DelimitedBlock(lines)
  {
    var inside := false;
    fm := [];
    var i := 0;
    while i < |lines|
      invariant 0 <= i <= |lines|
      invariant fm + ScanFrom(lines, i, inside) == ScanFrom(lines, 0, false)
    {
      var line := lines[i];
      ScanStep(lines, i, inside);
      if IsDelimiter(line) && !inside {
        inside := true;
      } else if IsDelimiter(line) && inside {
        break;
      } else if inside {
        fm := fm + [line];
      }
      i := i + 1;
    }
    OutsideScanIsBlock(lines, 0);
  }
}
