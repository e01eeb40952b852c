/** Small text utilities the tag script relies on: Python's substring test
    (`pat in s`), argument-less `str.strip()` and `str.split()`, and a
    first-match search over a sequence of lines.

    Whitespace is the ASCII part of Python's whitespace: space, tab, line
    feed, carriage return, vertical tab, form feed and the four separators
    0x1C-0x1F. Python's non-ASCII whitespace is not modelled. */
module Text {

  datatype Option<T> = None | Some(value: T)

  predicate IsSpace(c: char) {
    c == ' ' || c == '\t' || c == '\n' || c == '\r' || c == '\U{B}' || c == '\U{C}'
    || c == '\U{1C}' || c == '\U{1D}' || c == '\U{1E}' || c == '\U{1F}'
  }

  predicate NoSpace(s: string) {
    forall i :: 0 <= i < |s| ==> !IsSpace(s[i])
  }

  predicate AllSpace(s: string) {
    forall i :: 0 <= i < |s| ==> IsSpace(s[i])
  }

  /** A token `str.split()` can produce: non-empty, without whitespace. */
  predicate IsWord(w: string) {
    |w| > 0 && NoSpace(w)
  }

  predicate AllWords(ws: seq<string>) {
    forall i :: 0 <= i < |ws| ==> IsWord(ws[i])
  }

  /** Python's `pat in s`: `pat` occurs in `s` as a contiguous substring. */
  predicate Contains(s: string, pat: string)
    decreases |s|
  {
    if |s| < |pat| then false
    else s[..|pat|] == pat || Contains(s[1..], pat)
  }

  /** `pat` occurs in `s` starting at index `i`. */
  predicate OccursAt(s: string, pat: string, i: nat) {
    i + |pat| <= |s| && s[i..i + |pat|] == pat
  }

  /** The recursive test agrees with the positional definition of a
      substring occurrence. */
  lemma {:induction false} ContainsIffOccurs(s: string, pat: string)
    ensures Contains(s, pat) <==> exists i: nat :: OccursAt(s, pat, i)
    decreases |s|
  {
    if |s| >= |pat| && s[..|pat|] == pat {
      assert OccursAt(s, pat, 0);
    } else if |s| >= |pat| {
      ContainsIffOccurs(s[1..], pat);
      forall i: nat
        ensures OccursAt(s[1..], pat, i) <==> OccursAt(s, pat, i + 1)
      {
        if i + |pat| <= |s[1..]| {
          assert s[1..][i..i + |pat|] == s[i + 1..i + 1 + |pat|];
        }
      }
      if Contains(s, pat) {
        var i: nat :| OccursAt(s[1..], pat, i);
        assert OccursAt(s, pat, i + 1);
      }
      if exists i: nat :: OccursAt(s, pat, i) {
        var i: nat :| OccursAt(s, pat, i);
        assert i > 0;
        assert OccursAt(s[1..], pat, i - 1);
      }
    }
  }

  /** Prepending a character that cannot start an occurrence of a
      three-character pattern made of one repeated character does not
      create an occurrence. */
  lemma ContainsCons(c: char, s: string, p: char)
    requires c != p
    ensures Contains([c] + s, [p, p, p]) == Contains(s, [p, p, p])
  {
    assert ([c] + s)[0] == c;
    assert ([c] + s)[1..] == s;
  }

  /** Appending a character different from `p` cannot create an
      occurrence of `ppp`. */
  lemma {:induction false} ContainsSnoc(s: string, c: char, p: char)
    requires c != p
    ensures Contains(s + [c], [p, p, p]) == Contains(s, [p, p, p])
    decreases |s|
  {
    var pat := [p, p, p];
    if |s| < 3 {
      if |s + [c]| >= 3 {
        assert (s + [c])[|s|] == c;
        assert (s + [c])[..3] != pat;
        if |s| == 2 {
          assert (s + [c])[1..] == s[1..] + [c];
        }
      }
    } else {
      assert (s + [c])[..3] == s[..3];
      assert (s + [c])[1..] == s[1..] + [c];
      ContainsSnoc(s[1..], c, p);
    }
  }

  /** The concatenation of a sequence of strings. */
  function Concat(ws: seq<string>): string {
    if |ws| == 0 then [] else ws[0] + Concat(ws[1..])
  }

  /** `s` with every whitespace character removed. */
  function NonSpace(s: string): string {
    if |s| == 0 then []
    else (if IsSpace(s[0]) then [] else [s[0]]) + NonSpace(s[1..])
  }

  /** The pending word, if any, as a list of at most one token. */
  function Emit(word: string): seq<string> {
    if |word| == 0 then [] else [word]
  }

  /** Emitting the pending word puts its characters in front. */
  lemma EmitConcat(word: string, rest: seq<string>)
    ensures Concat(Emit(word) + rest) == word + Concat(rest)
  {
    if |word| > 0 {
      assert (Emit(word) + rest)[0] == word;
      assert (Emit(word) + rest)[1..] == rest;
    } else {
      assert Emit(word) + rest == rest;
    }
  }

  /** `str.split()` with a partly read word `word` carried in: a whitespace
      character ends the pending word, any other character extends it, and
      empty fields are dropped. The contract says no character other than
      whitespace is lost or reordered. */
  function SplitFrom(s: string, word: string): (ws: seq<string>)
    requires NoSpace(word)
    ensures AllWords(ws)
    ensures Concat(ws) == word + NonSpace(s)
    decreases |s|
  {
    if |s| == 0 then Emit(word)
    else if IsSpace(s[0]) then
      var rest := SplitFrom(s[1..], []);
      EmitConcat(word, rest);
      assert NonSpace(s) == NonSpace(s[1..]);
      Emit(word) + rest
    else
      assert NonSpace(s) == [s[0]] + NonSpace(s[1..]);
      assert word + [s[0]] + NonSpace(s[1..]) == word + NonSpace(s);
      SplitFrom(s[1..], word + [s[0]])
  }

  /** Python's argument-less `s.split()`. */
  function Words(s: string): (ws: seq<string>)
    ensures AllWords(ws)
    ensures Concat(ws) == NonSpace(s)
  {
    SplitFrom(s, [])
  }

  /** The length of the leading run of whitespace. */
  function LeadingSpace(s: string): (n: nat)
    ensures n <= |s|
    ensures forall i :: 0 <= i < n ==> IsSpace(s[i])
    ensures n == |s| || !IsSpace(s[n])
  {
    if |s| > 0 && IsSpace(s[0]) then 1 + LeadingSpace(s[1..]) else 0
  }

  /** Trailing whitespace removed. */
  function TrimEnd(s: string): (r: string)
    ensures |r| <= |s|
    ensures |r| == 0 || !IsSpace(r[|r| - 1])
    ensures r == s[..|r|]
    ensures forall i :: |r| <= i < |s| ==> IsSpace(s[i])
  {
    if |s| > 0 && IsSpace(s[|s| - 1]) then TrimEnd(s[..|s| - 1]) else s
  }

  /** Python's argument-less `s.strip()`: the input without its leading
      and trailing whitespace. */
  function Strip(s: string): (r: string)
    ensures LeadingSpace(s) + |r| <= |s|
    ensures r == s[LeadingSpace(s)..LeadingSpace(s) + |r|]
    ensures forall i :: LeadingSpace(s) + |r| <= i < |s| ==> IsSpace(s[i])
    ensures |r| == 0 || (!IsSpace(r[0]) && !IsSpace(r[|r| - 1]))
  {
    TrimEnd(s[LeadingSpace(s)..])
  }

  /** Whitespace before the first token never starts a token. */
  lemma {:induction false} SplitSkipsSpaces(sp: string, s: string)
    requires AllSpace(sp)
    ensures SplitFrom(sp + s, []) == SplitFrom(s, [])
    decreases |sp|
  {
    if |sp| == 0 {
      assert sp + s == s;
    } else {
      assert (sp + s)[0] == sp[0];
      assert (sp + s)[1..] == sp[1..] + s;
      assert SplitFrom(sp + s, []) == Emit([]) + SplitFrom(sp[1..] + s, []);
      SplitSkipsSpaces(sp[1..], s);
    }
  }

  /** Whitespace after the pending word ends it, and nothing follows. */
  lemma {:induction false} SplitEndsAtSpaces(sp: string, word: string)
    requires AllSpace(sp) && NoSpace(word)
    ensures SplitFrom(sp, word) == Emit(word)
    decreases |sp|
  {
    if |sp| > 0 {
      SplitEndsAtSpaces(sp[1..], []);
    }
  }

  /** A trailing whitespace character only ends the pending word. */
  lemma {:induction false} SplitDropsTrailingSpace(s: string, c: char, word: string)
    requires IsSpace(c) && NoSpace(word)
    ensures SplitFrom(s + [c], word) == SplitFrom(s, word)
    decreases |s|
  {
    if |s| == 0 {
      assert SplitFrom([c], word) == Emit(word) + SplitFrom([], []);
    } else {
      assert (s + [c])[0] == s[0];
      assert (s + [c])[1..] == s[1..] + [c];
      if IsSpace(s[0]) {
        SplitDropsTrailingSpace(s[1..], c, []);
      } else {
        SplitDropsTrailingSpace(s[1..], c, word + [s[0]]);
      }
    }
  }

  lemma {:induction false} SplitIgnoresTrimEnd(s: string)
    ensures SplitFrom(TrimEnd(s), []) == SplitFrom(s, [])
    decreases |s|
  {
    if |s| > 0 && IsSpace(s[|s| - 1]) {
      var init := s[..|s| - 1];
      assert s == init + [s[|s| - 1]];
      SplitDropsTrailingSpace(init, s[|s| - 1], []);
      SplitIgnoresTrimEnd(init);
    }
  }

  /** `s.strip().split()` is `s.split()`: stripping first changes nothing. */
  lemma WordsOfStrip(s: string)
    ensures Words(Strip(s)) == Words(s)
  {
    var n := LeadingSpace(s);
    var lead, body := s[..n], s[n..];
    assert Strip(s) == TrimEnd(body);
    assert SplitFrom(TrimEnd(body), []) == SplitFrom(body, []) by {
      SplitIgnoresTrimEnd(body);
    }
    assert AllSpace(lead) by {
      assert forall i :: 0 <= i < |lead| ==> lead[i] == s[i];
    }
    assert s == lead + body;
    SplitSkipsSpaces(lead, body);
  }

  /** Characters free of whitespace only extend the pending word. */
  lemma {:induction false} SplitExtendsWord(w: string, s: string, word: string)
    requires NoSpace(w) && NoSpace(word)
    ensures SplitFrom(w + s, word) == SplitFrom(s, word + w)
    decreases |w|
  {
    if |w| > 0 {
      assert (w + s)[0] == w[0];
      assert (w + s)[1..] == w[1..] + s;
      assert word + [w[0]] + w[1..] == word + w;
      SplitExtendsWord(w[1..], s, word + [w[0]]);
    } else {
      assert w + s == s;
      assert word + w == word;
    }
  }

  /** Words laid out with whitespace: `seps[0]`, then each word followed
      by the next separator. */
  function Interleave(ws: seq<string>, seps: seq<string>): string
    requires |seps| == |ws| + 1
    decreases |ws|
  {
    if |ws| == 0 then seps[0] else seps[0] + ws[0] + Interleave(ws[1..], seps[1..])
  }

  /** Any whitespace layout: every separator is whitespace only, those
      between two words are non-empty, the lead and the trail may be empty. */
  predicate IsLayout(ws: seq<string>, seps: seq<string>) {
    && |seps| == |ws| + 1
    && (forall i :: 0 <= i < |seps| ==> AllSpace(seps[i]))
    && (forall i :: 0 < i < |ws| ==> |seps[i]| > 0)
  }

  /** Splitting a whitespace layout of words gives back exactly the words,
      whatever whitespace surrounds and separates them. With `Words`'s own
      contract this fixes `split()` on every input. */
  lemma {:induction false} WordsOfLayout(ws: seq<string>, seps: seq<string>)
    requires AllWords(ws) && IsLayout(ws, seps)
    ensures Words(Interleave(ws, seps)) == ws
    decreases |ws|
  {
    if |ws| == 0 {
      SplitEndsAtSpaces(seps[0], []);
    } else {
      var rest := Interleave(ws[1..], seps[1..]);
      assert Interleave(ws, seps) == seps[0] + (ws[0] + rest);
      SplitSkipsSpaces(seps[0], ws[0] + rest);
      SplitExtendsWord(ws[0], rest, []);
      assert [] + ws[0] == ws[0];
      if |ws| == 1 {
        assert rest == seps[1];
        SplitEndsAtSpaces(seps[1], ws[0]);
        assert ws == [ws[0]];
      } else {
        var seps' := LayoutTail(ws, seps);
        assert SplitFrom(rest, ws[0]) == Emit(ws[0]) + SplitFrom(rest[1..], []);
        WordsOfLayout(ws[1..], seps');
        assert ws == [ws[0]] + ws[1..];
      }
    }
  }

  /** Past the first word of a layout with two or more words, the rest
      starts with whitespace, and after that whitespace character it is a
      layout of the remaining words. */
  lemma LayoutTail(ws: seq<string>, seps: seq<string>) returns (seps': seq<string>)
    requires |ws| > 1 && IsLayout(ws, seps)
    ensures IsLayout(ws[1..], seps')
    ensures IsSpace(Interleave(ws[1..], seps[1..])[0])
    ensures Interleave(ws[1..], seps[1..])[1..] == Interleave(ws[1..], seps')
  {
    seps' := [seps[1][1..]] + seps[2..];
    assert seps'[1..] == seps[2..];
    assert forall i :: 1 <= i < |seps'| ==> seps'[i] == seps[i + 1];
    assert ws[1..][1..] == ws[2..];
    assert seps[1..][1..] == seps[2..];
    var tail := Interleave(ws[2..], seps[2..]);
    assert Interleave(ws[1..], seps[1..]) == seps[1] + ws[1] + tail;
    assert Interleave(ws[1..], seps') == seps[1][1..] + ws[1] + tail;
  }

  /** Index of the first line at or after `from` that contains `pat`. */
  function FindFirst(lines: seq<string>, pat: string, from: nat): (r: Option<nat>)
    requires from <= |lines|
    ensures r.Some? ==> from <= r.value < |lines| && Contains(lines[r.value], pat)
    ensures r.Some? ==> forall j :: from <= j < r.value ==> !Contains(lines[j], pat)
    ensures r.None? <==> forall j :: from <= j < |lines| ==> !Contains(lines[j], pat)
    decreases |lines| - from
  {
    if from == |lines| then None
    else if Contains(lines[from], pat) then Some(from)
    else FindFirst(lines, pat, from + 1)
  }
}
