/**
 * The question-bank loader: the block pattern that `re.findall` applies to
 * the question file, written out as a scanner over characters, and the loop
 * that turns every matched block into a question record.
 *
 * The pattern is six tagged fields in sequence,
 *   [I]id \n [Q]question \n [A]opt1 \n [B]opt2 \n [C]opt3 \n [D]opt4
 * where every field is one or more characters other than '['.
 */
module QuestionParser {
  import opened Wrappers

  /** The six markers of a block, in the order the pattern requires them. */
  const Markers: seq<char> := ['I', 'Q', 'A', 'B', 'C', 'D']

  /** What the pattern's `[^[]+` accepts: a non-empty run without '['. */
  predicate IsField(f: string)
  {
    |f| > 0 && forall k :: 0 <= k < |f| ==> f[k] != '['
  }

  /** Every one of `fs` is a valid field. */
  predicate AllFields(fs: seq<string>)
  {
    forall k :: 0 <= k < |fs| ==> IsField(fs[k])
  }

  /** The marker text `[m]`. */
  function Header(m: char): string
  {
    ['[', m, ']']
  }

  /**
   * The text a block with markers `ms` and fields `fs` consists of: each
   * marker followed by its field, consecutive pairs separated by a newline.
   */
  function Render(ms: seq<char>, fs: seq<string>): string
    requires |ms| == |fs| >= 1
    decreases |ms|
  {
    if |ms| == 1 then Header(ms[0]) + fs[0]
    else Header(ms[0]) + fs[0] + "\n" + Render(ms[1..], fs[1..])
  }

  /**
   * The pattern, read declaratively: the text from `p` to `e` is a block
   * with markers `ms` and fields `fs`, every field is a valid field, and
   * the greedy last field could not have been extended (it stops at the
   * next '[' or at the end of the input).
   */
  ghost predicate BlockAt(s: string, p: nat, ms: seq<char>, fs: seq<string>, e: nat)
  {
    && |ms| >= 1 && |fs| == |ms|
    && p <= e <= |s|
    && AllFields(fs)
    && s[p..e] == Render(ms, fs)
    && (e == |s| || s[e] == '[')
  }

  /** The position of the first '[' at or after `p`, or the end of the input. */
  function FirstBracket(s: string, p: nat): (j: nat)
    requires p <= |s|
    ensures p <= j <= |s|
    ensures j < |s| ==> s[j] == '['
    ensures forall k :: p <= k < j ==> s[k] != '['
    decreases |s| - p
  {
    if p == |s| || s[p] == '[' then p else FirstBracket(s, p + 1)
  }

  /** The fields a scan collected and the position right after the block. */
  datatype Scan = Scan(fields: seq<string>, end: nat)

  /**
   * Matches the markers `ms` with their fields starting exactly at `p`.
   * A field that is followed by another marker stops right before the
   * newline that precedes the first '[' after its start, and that '[' must
   * open the next marker; the last field runs to the next '[' or the end.
   */
  function ScanFields(s: string, p: nat, ms: seq<char>): (r: Option<Scan>)
    requires p <= |s|
    requires |ms| >= 1
    ensures r.Some? ==> |r.value.fields| == |ms| && p < r.value.end <= |s|
    ensures r.Some? ==> AllFields(r.value.fields)
    decreases |ms|
  {
    if !(p + 3 <= |s| && s[p] == '[' && s[p + 1] == ms[0] && s[p + 2] == ']') then None
    else
      var j := FirstBracket(s, p + 3);
      if |ms| == 1 then
        if j > p + 3 then Some(Scan([s[p + 3..j]], j)) else None
      else if j >= p + 5 && s[j - 1] == '\n' then
        match ScanFields(s, j, ms[1..])
        case None => None
        case Some(rest) => Some(Scan([s[p + 3..j - 1]] + rest.fields, rest.end))
      else None
  }

  /** If a '[' ends a run of non-'[' characters starting at `p`, it is the first one. */
  lemma {:induction false} FirstBracketIs(s: string, p: nat, j: nat)
    requires p <= j <= |s|
    requires forall k :: p <= k < j ==> s[k] != '['
    requires j == |s| || s[j] == '['
    ensures FirstBracket(s, p) == j
    decreases j - p
  {
    if p < j {
      FirstBracketIs(s, p + 1, j);
    }
  }

  /** Splitting a slice that equals a concatenation. */
  lemma SliceSplit(s: string, p: nat, e: nat, x: string, y: string)
    requires p <= e <= |s|
    requires s[p..e] == x + y
    ensures p + |x| <= e
    ensures s[p..p + |x|] == x && s[p + |x|..e] == y
  {
    assert |s[p..e]| == |x| + |y|;
    assert s[p..e][..|x|] == x;
    assert s[p..e][|x|..] == y;
  }

  /** Joining adjacent slices. */
  lemma SliceJoin(s: string, p: nat, m: nat, e: nat)
    requires p <= m <= e <= |s|
    ensures s[p..e] == s[p..m] + s[m..e]
  {
  }

  /** A marker followed by a field that runs to the next '[' or the end is a one-marker block. */
  lemma BlockOne(s: string, p: nat, m: char, e: nat)
    requires p + 3 <= e <= |s| && s[p] == '[' && s[p + 1] == m && s[p + 2] == ']'
    requires IsField(s[p + 3..e])
    requires e == |s| || s[e] == '['
    ensures BlockAt(s, p, [m], [s[p + 3..e]], e)
  {
    assert s[p..p + 3] == Header(m);
    SliceJoin(s, p, p + 3, e);
  }

  /** A marker, a field, a newline and a block make a block one marker longer. */
  lemma BlockCons(s: string, p: nat, ms: seq<char>, f0: string, fs: seq<string>, e: nat)
    requires |ms| > 1 && p + 4 + |f0| <= e <= |s|
    requires s[p] == '[' && s[p + 1] == ms[0] && s[p + 2] == ']'
    requires IsField(f0) && s[p + 3..p + 3 + |f0|] == f0 && s[p + 3 + |f0|] == '\n'
    requires BlockAt(s, p + 4 + |f0|, ms[1..], fs, e)
    ensures BlockAt(s, p, ms, [f0] + fs, e)
  {
    var j := p + 4 + |f0|;
    var all := [f0] + fs;
    assert all[1..] == fs;
    assert s[p..p + 3] == Header(ms[0]);
    assert s[j - 1..j] == "\n";
    SliceJoin(s, p, p + 3, j - 1);
    SliceJoin(s, p, j - 1, j);
    SliceJoin(s, p, j, e);
    forall k | 0 <= k < |all| ensures IsField(all[k]) {
      if k > 0 {
        assert all[k] == fs[k - 1];
      }
    }
  }

  /** How the scan proceeds after a field that is followed by another marker. */
  lemma ScanStep(s: string, p: nat, ms: seq<char>, rest: Scan)
    requires p + 3 <= |s| && |ms| > 1 && s[p] == '[' && s[p + 1] == ms[0] && s[p + 2] == ']'
    requires FirstBracket(s, p + 3) >= p + 5 && s[FirstBracket(s, p + 3) - 1] == '\n'
    requires ScanFields(s, FirstBracket(s, p + 3), ms[1..]) == Some(rest)
    ensures ScanFields(s, p, ms) == Some(Scan([s[p + 3..FirstBracket(s, p + 3) - 1]] + rest.fields, rest.end))
  {
  }

  /** Every scan that succeeds found a block in the sense of the pattern. */
  lemma {:induction false} ScanSound(s: string, p: nat, ms: seq<char>)
    requires p <= |s| && |ms| >= 1
    requires ScanFields(s, p, ms).Some?
    ensures BlockAt(s, p, ms, ScanFields(s, p, ms).value.fields, ScanFields(s, p, ms).value.end)
    decreases |ms|
  {
    var j := FirstBracket(s, p + 3);
    if |ms| == 1 {
      assert [ms[0]] == ms;
      BlockOne(s, p, ms[0], j);
    } else {
      var rest := ScanFields(s, j, ms[1..]).value;
      ScanSound(s, j, ms[1..]);
      ScanStep(s, p, ms, rest);
      BlockCons(s, p, ms, s[p + 3..j - 1], rest.fields, rest.end);
    }
  }

  /** A slice that starts with a marker text: the marker's characters, then the rest. */
  lemma HeaderAt(s: string, p: nat, e: nat, m: char, rest: string)
    requires p <= e <= |s|
    requires s[p..e] == Header(m) + rest
    ensures p + 3 <= e && s[p] == '[' && s[p + 1] == m && s[p + 2] == ']'
    ensures s[p + 3..e] == rest
  {
    SliceSplit(s, p, e, Header(m), rest);
    assert s[p..p + 3][0] == s[p] && s[p..p + 3][1] == s[p + 1] && s[p..p + 3][2] == s[p + 2];
  }

  /**
   * A slice that starts with a run `f` free of '[' and continues with `rest`,
   * which is empty at a '[' or at the end of the input, or starts with '[':
   * the first '[' from `q` on is where `rest` begins.
   */
  lemma RunAt(s: string, q: nat, e: nat, f: string, rest: string)
    requires q <= e <= |s|
    requires s[q..e] == f + rest
    requires forall k :: 0 <= k < |f| ==> f[k] != '['
    requires rest == [] ==> e == |s| || s[e] == '['
    requires rest != [] ==> rest[0] == '['
    ensures FirstBracket(s, q) == q + |f|
    ensures s[q..q + |f|] == f && s[q + |f|..e] == rest
  {
    SliceSplit(s, q, e, f, rest);
    forall k | q <= k < q + |f| ensures s[k] != '[' {
      assert s[k] == s[q..q + |f|][k - q];
    }
    if rest != [] {
      assert s[q + |f|] == s[q + |f|..e][0];
    }
    FirstBracketIs(s, q, q + |f|);
  }

  /** A rendered block starts with its first marker text. */
  lemma RenderStart(ms: seq<char>, fs: seq<string>)
    requires |ms| == |fs| >= 1
    ensures |Render(ms, fs)| >= 3 && Render(ms, fs)[..3] == Header(ms[0])
    ensures Render(ms, fs)[0] == '[' && Render(ms, fs)[1] == ms[0]
  {
    var r := Render(ms, fs);
    if |ms| == 1 {
      assert r == Header(ms[0]) + fs[0];
    } else {
      assert r == Header(ms[0]) + (fs[0] + "\n" + Render(ms[1..], fs[1..]));
    }
    assert r[..3] == Header(ms[0]);
    assert r[1] == r[..3][1];
  }

  /** The last marker of a block and its field, read off the text. */
  lemma BlockLast(s: string, p: nat, ms: seq<char>, fs: seq<string>, e: nat)
    requires BlockAt(s, p, ms, fs, e) && |ms| == 1
    ensures p + 3 <= |s| && s[p] == '[' && s[p + 1] == ms[0] && s[p + 2] == ']'
    ensures FirstBracket(s, p + 3) == e && e > p + 3 && s[p + 3..e] == fs[0]
  {
    assert IsField(fs[0]);
    HeaderAt(s, p, e, ms[0], fs[0]);
    RunAt(s, p + 3, e, fs[0], []);
  }

  /** The first marker of a longer block, its field, and the block that follows. */
  lemma BlockHead(s: string, p: nat, ms: seq<char>, fs: seq<string>, e: nat)
    requires BlockAt(s, p, ms, fs, e) && |ms| > 1
    ensures p + 3 <= |s| && s[p] == '[' && s[p + 1] == ms[0] && s[p + 2] == ']'
    ensures var j := p + 4 + |fs[0]|;
      && FirstBracket(s, p + 3) == j && j >= p + 5 && s[j - 1] == '\n'
      && s[p + 3..j - 1] == fs[0]
      && BlockAt(s, j, ms[1..], fs[1..], e)
  {
    var f0 := fs[0];
    assert IsField(f0);
    var tail := Render(ms[1..], fs[1..]);
    var run := f0 + "\n";
    assert s[p..e] == Header(ms[0]) + (run + tail);
    HeaderAt(s, p, e, ms[0], run + tail);
    RenderStart(ms[1..], fs[1..]);
    RunAt(s, p + 3, e, run, tail);
    var j := p + 3 + |run|;
    assert s[j - 1] == s[p + 3..j][|run| - 1] == '\n';
    assert s[p + 3..j - 1] == s[p + 3..j][..|f0|] == f0;
    forall k | 0 <= k < |fs[1..]| ensures IsField(fs[1..][k]) {
      assert fs[1..][k] == fs[k + 1];
    }
  }

  /** How the scan proceeds over a block whose first field is known. */
  lemma ScanCompleteStep(s: string, p: nat, ms: seq<char>, fs: seq<string>, e: nat)
    requires |ms| > 1 && |fs| == |ms| && p + 3 <= |s| && s[p] == '[' && s[p + 1] == ms[0] && s[p + 2] == ']'
    requires FirstBracket(s, p + 3) == p + 4 + |fs[0]| >= p + 5 && s[p + 3 + |fs[0]|] == '\n'
    requires s[p + 3..p + 3 + |fs[0]|] == fs[0]
    requires ScanFields(s, p + 4 + |fs[0]|, ms[1..]) == Some(Scan(fs[1..], e))
    ensures ScanFields(s, p, ms) == Some(Scan(fs, e))
  {
    ScanStep(s, p, ms, Scan(fs[1..], e));
    assert [fs[0]] + fs[1..] == fs;
  }

  /** Every block in the sense of the pattern is what the scan finds there. */
  lemma {:induction false} ScanComplete(s: string, p: nat, ms: seq<char>, fs: seq<string>, e: nat)
    requires BlockAt(s, p, ms, fs, e)
    ensures ScanFields(s, p, ms) == Some(Scan(fs, e))
    decreases |ms|
  {
    if |ms| == 1 {
      BlockLast(s, p, ms, fs, e);
      assert [fs[0]] == fs;
    } else {
      BlockHead(s, p, ms, fs, e);
      ScanComplete(s, p + 4 + |fs[0]|, ms[1..], fs[1..], e);
      ScanCompleteStep(s, p, ms, fs, e);
    }
  }

  /** A block found by the scanner: where it starts and ends, and its captured fields. */
  datatype Match = Match(start: nat, end: nat, item: seq<string>)

  /**
   * `re.findall` with the block pattern for the markers `ms`: try a match
   * at `pos`; after a match, continue where it ended; after a failed
   * attempt, continue one character later.
   */
  function FindAll(s: string, pos: nat, ms: seq<char>): (r: seq<Match>)
    requires pos <= |s| && |ms| >= 1
    ensures forall k :: 0 <= k < |r| ==> pos <= r[k].start < r[k].end <= |s|
    ensures forall k :: 0 <= k < |r| ==> |r[k].item| == |ms| && AllFields(r[k].item)
    decreases |s| - pos
  {
    if pos == |s| then []
    else
      match ScanFields(s, pos, ms)
      case Some(m) => [Match(pos, m.end, m.fields)] + FindAll(s, m.end, ms)
      case None => FindAll(s, pos + 1, ms)
  }

  /** Each match ends no later than the next one starts. */
  ghost predicate Ordered(r: seq<Match>)
  {
    forall k :: 0 <= k < |r| - 1 ==> r[k].end <= r[k + 1].start
  }

  /** No match starts before position `i` and ends after it. */
  ghost predicate Outside(r: seq<Match>, i: nat)
  {
    forall k :: 0 <= k < |r| ==> i <= r[k].start || r[k].end <= i
  }

  /** Every match in `r` is a complete block of `s`. */
  ghost predicate AllBlocks(s: string, ms: seq<char>, r: seq<Match>)
  {
    r == [] || (BlockAt(s, r[0].start, ms, r[0].item, r[0].end) && AllBlocks(s, ms, r[1..]))
  }

  /** How `re.findall` proceeds from `pos` after a successful match. */
  lemma FindAllAfterMatch(s: string, pos: nat, ms: seq<char>)
    requires pos < |s| && |ms| >= 1 && ScanFields(s, pos, ms).Some?
    ensures var m := ScanFields(s, pos, ms).value;
      FindAll(s, pos, ms) == [Match(pos, m.end, m.fields)] + FindAll(s, m.end, ms)
  {
  }

  /** How `re.findall` proceeds from `pos` after a failed attempt. */
  lemma FindAllAfterMiss(s: string, pos: nat, ms: seq<char>)
    requires pos < |s| && |ms| >= 1 && ScanFields(s, pos, ms).None?
    ensures FindAll(s, pos, ms) == FindAll(s, pos + 1, ms)
  {
  }

  lemma ConsOrdered(x: Match, rest: seq<Match>)
    requires Ordered(rest)
    requires rest != [] ==> x.end <= rest[0].start
    ensures Ordered([x] + rest)
  {
    var r := [x] + rest;
    forall k | 0 <= k < |r| - 1 ensures r[k].end <= r[k + 1].start {
      if k > 0 {
        assert r[k] == rest[k - 1] && r[k + 1] == rest[k];
      }
    }
  }

  lemma ConsOutside(x: Match, rest: seq<Match>, i: nat)
    requires Outside([x] + rest, i)
    ensures Outside(rest, i)
  {
    forall k | 0 <= k < |rest| ensures i <= rest[k].start || rest[k].end <= i {
      assert rest[k] == ([x] + rest)[k + 1];
    }
  }

  /** Matches come out in input order and do not overlap. */
  lemma {:induction false} FindAllOrdered(s: string, pos: nat, ms: seq<char>)
    requires pos <= |s| && |ms| >= 1
    ensures Ordered(FindAll(s, pos, ms))
    decreases |s| - pos
  {
    if pos < |s| {
      var sc := ScanFields(s, pos, ms);
      if sc.Some? {
        FindAllAfterMatch(s, pos, ms);
        FindAllOrdered(s, sc.value.end, ms);
        ConsOrdered(Match(pos, sc.value.end, sc.value.fields), FindAll(s, sc.value.end, ms));
      } else {
        FindAllAfterMiss(s, pos, ms);
        FindAllOrdered(s, pos + 1, ms);
      }
    }
  }

  /** Every match `re.findall` reports is a complete block of the input. */
  lemma {:induction false} FindAllSound(s: string, pos: nat, ms: seq<char>)
    requires pos <= |s| && |ms| >= 1
    ensures AllBlocks(s, ms, FindAll(s, pos, ms))
    decreases |s| - pos
  {
    if pos < |s| {
      var sc := ScanFields(s, pos, ms);
      if sc.Some? {
        FindAllAfterMatch(s, pos, ms);
        ScanSound(s, pos, ms);
        FindAllSound(s, sc.value.end, ms);
        assert FindAll(s, pos, ms)[1..] == FindAll(s, sc.value.end, ms);
      } else {
        FindAllAfterMiss(s, pos, ms);
        FindAllSound(s, pos + 1, ms);
      }
    }
  }

  /**
   * Every block that starts at or after `pos` is reported unless some match
   * starts before it and ends after it: a malformed block before it does
   * not stop the scan.
   */
  lemma {:induction false} FindAllComplete(s: string, pos: nat, ms: seq<char>, i: nat, fs: seq<string>, e: nat)
    requires pos <= i && pos <= |s|
    requires BlockAt(s, i, ms, fs, e)
    requires Outside(FindAll(s, pos, ms), i)
    ensures Match(i, e, fs) in FindAll(s, pos, ms)
    decreases |s| - pos
  {
    ScanComplete(s, i, ms, fs, e);
    if i == pos {
      FindAllAfterMatch(s, pos, ms);
    } else {
      var sc := ScanFields(s, pos, ms);
      if sc.Some? {
        var x := Match(pos, sc.value.end, sc.value.fields);
        FindAllAfterMatch(s, pos, ms);
        ConsOutside(x, FindAll(s, sc.value.end, ms), i);
        assert x in FindAll(s, pos, ms);
        FindAllComplete(s, sc.value.end, ms, i, fs, e);
      } else {
        FindAllAfterMiss(s, pos, ms);
        FindAllComplete(s, pos + 1, ms, i, fs, e);
      }
    }
  }

  /** A '[' at position `j` of `r`, if there is one, is followed by one of `later`. */
  ghost predicate OpensLater(r: string, later: seq<char>, j: nat)
    requires j < |r|
  {
    r[j] == '[' ==> j + 1 < |r| && r[j + 1] in later
  }

  /**
   * Inside a rendered block whose markers are not '[', every '[' after the
   * first opens the marker text of a later marker.
   */
  lemma {:induction false} RenderBrackets(ms: seq<char>, fs: seq<string>)
    requires |ms| == |fs| >= 1 && AllFields(fs) && '[' !in ms
    ensures forall j :: 0 < j < |Render(ms, fs)| ==> OpensLater(Render(ms, fs), ms[1..], j)
    decreases |ms|
  {
    var r := Render(ms, fs);
    var f0 := fs[0];
    assert IsField(f0);
    assert ms[0] in ms;
    if |ms| == 1 {
      forall j | 0 < j < |r| ensures OpensLater(r, ms[1..], j) {
        if j < 3 {
          assert r[j] == Header(ms[0])[j];
        } else {
          assert r[j] == f0[j - 3];
        }
      }
    } else {
      var tail := Render(ms[1..], fs[1..]);
      var n := 4 + |f0|;
      assert r == Header(ms[0]) + f0 + "\n" + tail;
      assert |r| == n + |tail|;
      forall k | 0 <= k < |fs[1..]| ensures IsField(fs[1..][k]) {
        assert fs[1..][k] == fs[k + 1];
      }
      assert forall x :: x in ms[1..] ==> x in ms;
      RenderBrackets(ms[1..], fs[1..]);
      RenderStart(ms[1..], fs[1..]);
      assert ms[1..][1..] == ms[2..];
      assert forall x :: x in ms[2..] ==> x in ms[1..];
      forall j | 0 < j < |r| ensures OpensLater(r, ms[1..], j) {
        if j < 3 {
          assert r[j] == Header(ms[0])[j];
        } else if j < n - 1 {
          assert r[j] == f0[j - 3];
        } else if j == n - 1 {
          assert r[j] == '\n';
        } else if j == n {
          assert r[j + 1] == tail[1] == ms[1];
          assert ms[1] == ms[1..][0];
        } else {
          assert r[j] == tail[j - n];
          assert OpensLater(tail, ms[1..][1..], j - n);
          if r[j] == '[' {
            assert r[j + 1] == tail[j + 1 - n];
          }
        }
      }
    }
  }

  /** A '[' strictly inside a block opens the marker text of one of its later markers. */
  lemma BracketInsideBlock(s: string, p: nat, ms: seq<char>, fs: seq<string>, e: nat, i: nat)
    requires BlockAt(s, p, ms, fs, e) && '[' !in ms
    requires p < i < e && s[i] == '['
    ensures i + 1 < e && s[i + 1] in ms[1..]
  {
    var r := Render(ms, fs);
    RenderBrackets(ms, fs);
    assert |r| == e - p;
    assert s[i] == s[p..e][i - p] == r[i - p];
    assert OpensLater(r, ms[1..], i - p);
    assert s[i + 1] == s[p..e][i + 1 - p] == r[i + 1 - p];
  }

  /**
   * When the first marker is not '[' and does not occur again among the
   * markers, no match can start before a block and end after it, so every
   * complete block of the text is reported.
   */
  lemma FindAllReportsBlock(s: string, ms: seq<char>, i: nat, fs: seq<string>, e: nat)
    requires BlockAt(s, i, ms, fs, e)
    requires '[' !in ms && ms[0] !in ms[1..]
    ensures Match(i, e, fs) in FindAll(s, 0, ms)
  {
    var r := FindAll(s, 0, ms);
    FindAllSound(s, 0, ms);
    RenderStart(ms, fs);
    assert s[i] == s[i..e][0] && s[i + 1] == s[i..e][1];
    forall k | 0 <= k < |r| ensures i <= r[k].start || r[k].end <= i {
      AllBlocksAt(s, ms, r, k);
      if r[k].start < i < r[k].end {
        BracketInsideBlock(s, r[k].start, ms, r[k].item, r[k].end, i);
        assert false;
      }
    }
    FindAllComplete(s, 0, ms, i, fs, e);
  }

  /** A block anywhere at or after `pos` makes `re.findall` report something. */
  lemma {:induction false} FindAllNonEmpty(s: string, pos: nat, ms: seq<char>, i: nat, fs: seq<string>, e: nat)
    requires pos <= i && pos <= |s|
    requires BlockAt(s, i, ms, fs, e)
    ensures FindAll(s, pos, ms) != []
    decreases |s| - pos
  {
    if i == pos {
      ScanComplete(s, i, ms, fs, e);
    } else {
      var sc := ScanFields(s, pos, ms);
      if sc.None? {
        FindAllAfterMiss(s, pos, ms);
        FindAllNonEmpty(s, pos + 1, ms, i, fs, e);
      }
    }
  }

  /** `re.findall` reports nothing exactly when no block starts at or after `pos`. */
  lemma FindAllEmptyIff(s: string, pos: nat, ms: seq<char>)
    requires pos <= |s| && |ms| >= 1
    ensures FindAll(s, pos, ms) != [] <==> exists i, fs, e :: pos <= i && BlockAt(s, i, ms, fs, e)
  {
    var r := FindAll(s, pos, ms);
    if r != [] {
      FindAllSound(s, pos, ms);
      assert BlockAt(s, r[0].start, ms, r[0].item, r[0].end);
    }
    if exists i, fs, e :: pos <= i && BlockAt(s, i, ms, fs, e) {
      var i, fs, e :| pos <= i && BlockAt(s, i, ms, fs, e);
      FindAllNonEmpty(s, pos, ms, i, fs, e);
    }
  }

  /** The `k`-th match of a list of complete blocks is a complete block. */
  lemma {:induction false} AllBlocksAt(s: string, ms: seq<char>, r: seq<Match>, k: nat)
    requires AllBlocks(s, ms, r) && k < |r|
    ensures BlockAt(s, r[k].start, ms, r[k].item, r[k].end)
  {
    if k > 0 {
      AllBlocksAt(s, ms, r[1..], k - 1);
    }
  }

  /** The `k`-th match is the text of its fields rendered as a block. */
  lemma MatchIsBlockText(s: string, pos: nat, ms: seq<char>, k: nat)
    requires pos <= |s| && |ms| >= 1
    requires k < |FindAll(s, pos, ms)|
    ensures var m := FindAll(s, pos, ms)[k];
      s[m.start..m.end] == Render(ms, m.item)
  {
    FindAllSound(s, pos, ms);
    AllBlocksAt(s, ms, FindAll(s, pos, ms), k);
  }

  /** Positions where no block starts are passed over one character at a time. */
  lemma {:induction false} FindAllSkip(s: string, pos: nat, ms: seq<char>, i: nat)
    requires pos <= i <= |s| && |ms| >= 1
    requires forall k :: pos <= k < i ==> ScanFields(s, k, ms).None?
    ensures FindAll(s, pos, ms) == FindAll(s, i, ms)
    decreases i - pos
  {
    if pos < i {
      FindAllAfterMiss(s, pos, ms);
      FindAllSkip(s, pos + 1, ms, i);
    }
  }

  /**
   * Text in which no block starts, such as a malformed block, is skipped:
   * the first block after it is the next match, and the scan goes on from
   * the end of that block.
   */
  lemma FindAllFirstBlock(s: string, pos: nat, ms: seq<char>, i: nat, fs: seq<string>, e: nat)
    requires pos <= i <= |s| && |ms| >= 1
    requires forall k :: pos <= k < i ==> ScanFields(s, k, ms).None?
    requires BlockAt(s, i, ms, fs, e)
    ensures FindAll(s, pos, ms) == [Match(i, e, fs)] + FindAll(s, e, ms)
  {
    ScanComplete(s, i, ms, fs, e);
    FindAllSkip(s, pos, ms, i);
    FindAllAfterMatch(s, i, ms);
  }

  /**
   * With the question-file markers, every complete `[I]` … `[D]` block of
   * the text is reported, since no '[' inside a block is followed by 'I'.
   */
  lemma BlockReported(s: string, i: nat, fs: seq<string>, e: nat)
    requires BlockAt(s, i, Markers, fs, e)
    ensures Match(i, e, fs) in FindAll(s, 0, Markers)
  {
    assert Markers[1..] == ['Q', 'A', 'B', 'C', 'D'];
    FindAllReportsBlock(s, Markers, i, fs, e);
  }

  /** A question record, as the loader builds it. */
  datatype Question = Question(id: string, question: string, options: seq<string>, answer: string)

  /** What every record of the loader satisfies. */
  predicate WellFormed(q: Question)
  {
    && IsField(q.id) && IsField(q.question)
    && |q.options| == 4
    && (forall k :: 0 <= k < 4 ==> IsField(q.options[k]))
    && q.answer == q.options[0]
  }

  /**
   * The record built from one match: the identifier, the question, the four
   * options in file order, and the first option as the answer.
   */
  function ToQuestion(item: seq<string>): (q: Question)
    requires |item| == 6 && AllFields(item)
    ensures WellFormed(q)
    ensures q.id == item[0] && q.question == item[1] && q.options == item[2..]
  {
    Question(item[0], item[1], [item[2], item[3], item[4], item[5]], item[2])
  }

  /**
   * Each record of the loader, written back as a block with its fields in
   * the order `[I]`, `[Q]`, `[A]`, `[B]`, `[C]`, `[D]`, is exactly the text
   * of the match it was built from.
   */
  lemma RecordIsBlockText(s: string, k: nat)
    requires k < |FindAll(s, 0, Markers)|
    ensures var m := FindAll(s, 0, Markers)[k];
      var q := ToQuestion(m.item);
      s[m.start..m.end] == Render(Markers, [q.id, q.question] + q.options)
  {
    var m := FindAll(s, 0, Markers)[k];
    MatchIsBlockText(s, 0, Markers, k);
    var q := ToQuestion(m.item);
    assert [q.id, q.question] + q.options == m.item;
  }

  /**
   * Loads the question bank from the text of the question file: one record
   * per match of the block pattern, in the order of the matches.
   */
  method ParseQuestionData(txtData: string) returns (questions: seq<Question>)
    ensures |questions| == |FindAll(txtData, 0, Markers)|
    ensures forall k :: 0 <= k < |questions| ==> questions[k] == ToQuestion(FindAll(txtData, 0, Markers)[k].item)
    ensures forall k :: 0 <= k < |questions| ==> WellFormed(questions[k])
  {
    var questionData := FindAll(txtData, 0, Markers);
    questions := [];
    for n := 0 to |questionData|
      invariant |questions| == n
      invariant forall k :: 0 <= k < n ==> questions[k] == ToQuestion(questionData[k].item)
    {
      var item := questionData[n].item;
      var question := ToQuestion(item);
      questions := questions + [question];
    }
  }
}
