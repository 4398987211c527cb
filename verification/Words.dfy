/** The two tokenisers: `split_line` copies the words of a line, `split_request` cuts its buffer in place. */
module Words {

  /** `isspace` of the C library, and the module's own `is_space`, which knows no vertical tab and no form feed. */
  predicate LineSpace(c: char) { c == ' ' || '\t' <= c <= '\r' }

  predicate RequestSpace(c: char) { c == ' ' || c == '\n' || c == '\r' || c == '\t' }

  const NUL := '\0'

  datatype Span = Span(lo: nat, hi: nat)

  // ---- what a word is ----

  /** `s[lo..hi]` is a maximal run of characters that are no spaces. */
  predicate IsRun(space: char -> bool, s: string, r: Span) {
    && r.lo < r.hi <= |s|
    && (forall k | r.lo <= k < r.hi :: !space(s[k]))
    && (r.lo == 0 || space(s[r.lo - 1]))
    && (r.hi == |s| || space(s[r.hi]))
  }

  /** The first position from `k` on that is no space, or the end. */
  function Skip(space: char -> bool, s: string, k: nat): (j: nat)
    requires k <= |s|
    ensures k <= j <= |s| && (forall i | k <= i < j :: space(s[i])) && (j < |s| ==> !space(s[j]))
    decreases |s| - k
  {
    if k == |s| || !space(s[k]) then k else Skip(space, s, k + 1)
  }

  /** The first position from `k` on that is a space, or the end. */
  function Stop(space: char -> bool, s: string, k: nat): (j: nat)
    requires k <= |s|
    ensures k <= j <= |s| && (forall i | k <= i < j :: !space(s[i])) && (j < |s| ==> space(s[j]))
    ensures k < |s| && !space(s[k]) ==> k < j
    decreases |s| - k
  {
    if k == |s| || space(s[k]) then k else Stop(space, s, k + 1)
  }

  /** The runs from `k` on, in order. */
  function Spans(space: char -> bool, s: string, k: nat): seq<Span>
    requires k <= |s|
    decreases |s| - k
  {
    var lo := Skip(space, s, k);
    if lo == |s| then []
    else
      var hi := Stop(space, s, lo);
      [Span(lo, hi)] + Spans(space, s, hi)
  }

  function Cut(s: string, r: Span): string {
    if r.lo <= r.hi <= |s| then s[r.lo..r.hi] else ""
  }

  function Slices(s: string, rs: seq<Span>): (ws: seq<string>)
    ensures |ws| == |rs|
  {
    seq(|rs|, k requires 0 <= k < |rs| => Cut(s, rs[k]))
  }

  /** The words of `s`. */
  function WordsOf(space: char -> bool, s: string): seq<string> {
    Slices(s, Spans(space, s, 0))
  }

  /** `k` is a place where a word may begin. */
  predicate Boundary(space: char -> bool, s: string, k: nat) {
    k <= |s| && (k == 0 || k == |s| || space(s[k - 1]) || space(s[k]))
  }

  /** The spans are exactly the maximal runs, in ascending order, none twice. */
  lemma {:induction false} SpansAreRuns(space: char -> bool, s: string, k: nat)
    requires Boundary(space, s, k)
    ensures var rs := Spans(space, s, k);
            && (forall r :: r in rs <==> IsRun(space, s, r) && k <= r.lo)
            && (forall i, j | 0 <= i < j < |rs| :: rs[i].hi < rs[j].lo)
    decreases |s| - k
  {
    var lo := Skip(space, s, k);
    if lo == |s| {
      forall r: Span | k <= r.lo < |s| ensures !IsRun(space, s, r) { assert space(s[r.lo]); }
    } else {
      var hi := Stop(space, s, lo);
      SpansAreRuns(space, s, hi);
      var rest := Spans(space, s, hi);
      var rs := [Span(lo, hi)] + rest;
      assert IsRun(space, s, Span(lo, hi));
      forall r | IsRun(space, s, r) && k <= r.lo ensures r in rs {
        if r.lo < hi {
          RunFromFirst(space, s, lo, hi, r);
          assert rs[0] == r;
        } else {
          assert r in rest;
        }
      }
      forall j | 0 <= j < |rest| ensures hi < rest[j].lo {
        assert rest[j] in rest;
        if rest[j].lo == hi { assert space(s[hi]); }
      }
    }
  }

  lemma RunFromFirst(space: char -> bool, s: string, lo: nat, hi: nat, r: Span)
    requires IsRun(space, s, Span(lo, hi)) && IsRun(space, s, r) && r.lo < hi
    requires lo <= r.lo || forall i | r.lo <= i < lo :: space(s[i])
    ensures r == Span(lo, hi)
  {
    assert !space(s[r.lo]) && !space(s[lo]);
    assert r.lo > 0 ==> space(s[r.lo - 1]);
    assert lo <= r.lo;
    assert r.lo == lo;
    assert r.hi < |s| ==> space(s[r.hi]);
    assert hi < |s| ==> space(s[hi]);
  }

  // ---- the counting pass ----

  /** Positions from `k` on that end a run. */
  function RunEnds(space: char -> bool, s: string, k: nat): nat
    requires k <= |s|
    decreases |s| - k
  {
    if k == |s| then 0
    else (if !space(s[k]) && (k + 1 == |s| || space(s[k + 1])) then 1 else 0) + RunEnds(space, s, k + 1)
  }

  lemma {:induction false} EndsInRun(space: char -> bool, s: string, k: nat)
    requires k < |s| && !space(s[k])
    ensures RunEnds(space, s, k) == 1 + RunEnds(space, s, Stop(space, s, k))
    decreases |s| - k
  {
    if k + 1 < |s| && !space(s[k + 1]) {
      EndsInRun(space, s, k + 1);
    }
  }

  lemma {:induction false} EndsInGap(space: char -> bool, s: string, k: nat)
    requires k <= |s|
    ensures RunEnds(space, s, k) == RunEnds(space, s, Skip(space, s, k))
    decreases |s| - k
  {
    if k < |s| && space(s[k]) {
      EndsInGap(space, s, k + 1);
    }
  }

  /** Counting the ends of runs counts the words. */
  lemma {:induction false} CountsAgree(space: char -> bool, s: string, k: nat)
    requires k <= |s|
    ensures RunEnds(space, s, k) == |Spans(space, s, k)|
    decreases |s| - k
  {
    EndsInGap(space, s, k);
    var lo := Skip(space, s, k);
    if lo < |s| {
      EndsInRun(space, s, lo);
      CountsAgree(space, s, Stop(space, s, lo));
    }
  }

  // ---- split_line ----

  /** A C string is read up to its terminator and not beyond. */
  function CharAt(s: string, k: nat): char
    requires k <= |s|
  {
    if k < |s| then s[k] else NUL
  }

  /** The counting pass. */
  method CountWords(space: char -> bool, data: string) returns (count: nat)
    requires data != []
    ensures count == |Spans(space, data, 0)|
  {
    count := 0;
    var length := |data|;
    var index := 1;
    while index < length
      invariant 1 <= index <= length
      invariant count + RunEnds(space, data, index - 1) == RunEnds(space, data, 0)
    {
      if space(data[index]) && !space(data[index - 1]) {
        count := count + 1;
      }
      index := index + 1;
    }
    if !space(data[length - 1]) {
      count := count + 1;
    }
    CountsAgree(space, data, 0);
  }

  /** Skip spaces, then take the word; neither loop looks behind the terminator. */
  method NextWord(line: string, from: nat) returns (begin: nat, data: nat)
    requires NUL !in line && from <= |line|
    ensures begin == Skip(LineSpace, line, from) && data == Stop(LineSpace, line, begin)
  {
    data := from;
    while LineSpace(CharAt(line, data))
      invariant from <= data <= |line| && Skip(LineSpace, line, data) == Skip(LineSpace, line, from)
      decreases |line| - data
    {
      data := data + 1;
    }
    begin := data;
    while !LineSpace(CharAt(line, data)) && CharAt(line, data) != NUL
      invariant begin <= data <= |line| && Stop(LineSpace, line, data) == Stop(LineSpace, line, begin)
      decreases |line| - data
    {
      data := data + 1;
    }
    if data < |line| { assert line[data] in line; }
  }

  /** `split_line`: the array sized by the counting pass is filled exactly by the extraction pass. */
  method SplitLine(line: string) returns (result: seq<string>)
    requires NUL !in line
    ensures result == WordsOf(LineSpace, line)
  {
    hide Spans, Skip, Stop, Slices;
    if line == [] {
      EmptyLine(line);
      return [];
    }
    var count := CountWords(LineSpace, line);
    var tokens := new string[count](_ => "");
    ghost var rs := Spans(LineSpace, line, 0);
    var data, index := 0, 0;
    while index < count
      invariant 0 <= index <= count == |rs| && 0 <= data <= |line|
      invariant Spans(LineSpace, line, data) == rs[index..]
      invariant tokens[..index] == Slices(line, rs)[..index]
    {
      var begin, end := NextWord(line, data);
      FirstSpan(LineSpace, line, data, rs, index);
      SliceAt(line, rs, index);
      tokens[index] := line[begin..end];
      data := end;
      index := index + 1;
    }
    return tokens[..];
  }

  lemma EmptyLine(s: string)
    requires s == ""
    ensures WordsOf(LineSpace, s) == []
  {
  }

  lemma SliceAt(s: string, rs: seq<Span>, n: nat)
    requires n < |rs| && rs[n].lo <= rs[n].hi <= |s|
    ensures Slices(s, rs)[n] == s[rs[n].lo..rs[n].hi]
  {
  }

  lemma FirstSpan(space: char -> bool, s: string, k: nat, rs: seq<Span>, n: nat)
    requires k <= |s| && n < |rs| && Spans(space, s, k) == rs[n..]
    ensures var lo := Skip(space, s, k);
            && lo < |s| && rs[n] == Span(lo, Stop(space, s, lo))
            && Spans(space, s, Stop(space, s, lo)) == rs[n + 1..]
  {
    assert rs[n] == rs[n..][0] && rs[n + 1..] == rs[n..][1..];
  }

  // ---- splitting undoes joining ----

  /** Words with separators around and between them; `seps` has one element more than `ws`. */
  function Join(seps: seq<string>, ws: seq<string>): string
    requires |seps| == |ws| + 1
  {
    if ws == [] then seps[0] else seps[0] + ws[0] + Join(seps[1..], ws[1..])
  }

  /** Separators are spaces, those between two words not empty; words are not empty and free of spaces. */
  predicate Joinable(space: char -> bool, seps: seq<string>, ws: seq<string>) {
    && |seps| == |ws| + 1
    && (forall k, c | 0 <= k < |seps| && c in seps[k] :: space(c))
    && (forall k | 0 < k < |ws| :: seps[k] != "")
    && (forall k | 0 <= k < |ws| :: ws[k] != "")
    && (forall k, c | 0 <= k < |ws| && c in ws[k] :: !space(c))
  }

  lemma {:induction false} SkipIs(space: char -> bool, s: string, k: nat, j: nat)
    requires k <= j <= |s| && (forall i | k <= i < j :: space(s[i])) && (j < |s| ==> !space(s[j]))
    ensures Skip(space, s, k) == j
    decreases j - k
  {
    if k < j { SkipIs(space, s, k + 1, j); }
  }

  lemma {:induction false} StopIs(space: char -> bool, s: string, k: nat, j: nat)
    requires k <= j <= |s| && (forall i | k <= i < j :: !space(s[i])) && (j < |s| ==> space(s[j]))
    ensures Stop(space, s, k) == j
    decreases j - k
  {
    if k < j { StopIs(space, s, k + 1, j); }
  }

  lemma JoinStarts(space: char -> bool, seps: seq<string>, ws: seq<string>)
    requires Joinable(space, seps, ws) && (ws != [] ==> seps[0] != "")
    ensures Join(seps, ws) == "" || space(Join(seps, ws)[0])
  {
    if seps[0] != "" { assert seps[0][0] in seps[0]; }
  }

  /** Splitting a joined line gives back the words, whatever spaces stand before, between and behind them. */
  lemma {:induction false} SplitJoined(space: char -> bool, s: string, before: string, seps: seq<string>, ws: seq<string>)
    requires |seps| == |ws| + 1 && Joinable(space, seps, ws) && s == before + Join(seps, ws)
    ensures Slices(s, Spans(space, s, |before|)) == ws
    decreases |ws|
  {
    hide Slices, Skip, Stop, Joinable;
    if ws == [] {
      OnlySpaces(space, s, before, seps);
    } else {
      var lo := |before| + |seps[0]|;
      var hi, rest := lo + |ws[0]|, Join(seps[1..], ws[1..]);
      JoinableTail(space, seps, ws);
      JoinStarts(space, seps[1..], ws[1..]);
      JoinStep(s, before, seps, ws);
      HeadFound(space, s, before, seps[0], ws[0], rest);
      SplitJoined(space, s, before + seps[0] + ws[0], seps[1..], ws[1..]);
      SpansStep(space, s, |before|, lo, hi);
      FirstSlice(s, Span(lo, hi), Spans(space, s, hi));
    }
  }

  lemma JoinStep(s: string, before: string, seps: seq<string>, ws: seq<string>)
    requires |seps| == |ws| + 1 && ws != [] && s == before + Join(seps, ws)
    ensures s == before + (seps[0] + ws[0] + Join(seps[1..], ws[1..]))
  {
  }

  lemma SpansStep(space: char -> bool, s: string, k: nat, lo: nat, hi: nat)
    requires k <= lo < hi <= |s| && Skip(space, s, k) == lo && Stop(space, s, lo) == hi
    ensures Spans(space, s, k) == [Span(lo, hi)] + Spans(space, s, hi)
  {
  }

  lemma OnlySpaces(space: char -> bool, s: string, before: string, seps: seq<string>)
    requires Joinable(space, seps, []) && s == before + Join(seps, [])
    ensures Slices(s, Spans(space, s, |before|)) == []
  {
    assert s[|before|..] == seps[0];
    SliceMembers(s, |before|, |s|);
    SkipIs(space, s, |before|, |s|);
  }

  /** Where the first word stands in a joined line. */
  lemma HeadFound(space: char -> bool, s: string, before: string, sep: string, w: string, rest: string)
    requires s == before + (sep + w + rest) && w != ""
    requires (forall c | c in sep :: space(c)) && (forall c | c in w :: !space(c)) && (rest != "" ==> space(rest[0]))
    ensures var lo, hi := |before| + |sep|, |before| + |sep| + |w|;
            && s == before + sep + w + rest && lo < hi <= |s| && s[lo..hi] == w
            && Skip(space, s, |before|) == lo && Stop(space, s, lo) == hi
  {
    hide Skip, Stop;
    var k, lo, hi := |before|, |before| + |sep|, |before| + |sep| + |w|;
    Parts(s, before, sep, w, rest);
    SliceMembers(s, k, lo);
    SliceMembers(s, lo, hi);
    if hi < |s| { SliceHead(s, hi); }
    SkipIs(space, s, k, lo);
    StopIs(space, s, lo, hi);
  }

  lemma SliceMembers(s: string, lo: nat, hi: nat)
    requires lo <= hi <= |s|
    ensures forall i | lo <= i < hi :: s[i] in s[lo..hi]
  {
    forall i | lo <= i < hi ensures s[i] in s[lo..hi] { assert s[i] == s[lo..hi][i - lo]; }
  }

  lemma SliceHead(s: string, k: nat)
    requires k < |s|
    ensures s[k..][0] == s[k]
  {
  }

  lemma Parts(s: string, a: string, b: string, c: string, d: string)
    requires s == a + (b + c + d)
    ensures s == a + b + c + d
    ensures s[|a|..|a| + |b|] == b && s[|a| + |b|..|a| + |b| + |c|] == c && s[|a| + |b| + |c|..] == d
  {
  }

  lemma JoinableTail(space: char -> bool, seps: seq<string>, ws: seq<string>)
    requires Joinable(space, seps, ws) && ws != []
    ensures Joinable(space, seps[1..], ws[1..]) && (ws[1..] != [] ==> seps[1..][0] != "")
    ensures ws[0] != "" && (forall c | c in seps[0] :: space(c)) && (forall c | c in ws[0] :: !space(c))
  {
  }

  lemma FirstSlice(s: string, r: Span, rs: seq<Span>)
    ensures Slices(s, [r] + rs) == [Cut(s, r)] + Slices(s, rs)
  {
  }

  /** For the words of a whole line. */
  lemma SplitUndoesJoin(space: char -> bool, seps: seq<string>, ws: seq<string>)
    requires Joinable(space, seps, ws)
    ensures WordsOf(space, Join(seps, ws)) == ws
  {
    var s := Join(seps, ws);
    assert s == "" + s;
    SplitJoined(space, s, "", seps, ws);
  }

  // ---- split_request ----

  /** The buffer after all spaces before position `n` were overwritten with NUL. */
  function CutBuffer(s: string, n: nat): (r: string)
    ensures |r| == |s|
  {
    seq(|s|, k requires 0 <= k < |s| => if k < n && RequestSpace(s[k]) then NUL else s[k])
  }

  /** The C string that starts at the head of `s`. */
  function CString(s: string): string {
    if s == "" || s[0] == NUL then "" else [s[0]] + CString(s[1..])
  }

  lemma {:induction false} CStringIs(s: string, n: nat)
    requires n < |s| && s[n] == NUL && NUL !in s[..n]
    ensures CString(s) == s[..n]
  {
    if n > 0 {
      assert s[0] == s[..n][0] && s[1..][..n - 1] == s[..n][1..];
      CStringIs(s[1..], n - 1);
      assert s[..n] == [s[0]] + s[1..][..n - 1];
    }
  }

  /** The C string is the text before the first NUL. */
  lemma {:induction false} CStringPrefix(s: string)
    ensures CString(s) <= s && NUL !in CString(s)
    ensures |CString(s)| < |s| ==> s[|CString(s)|] == NUL
    ensures NUL !in s ==> CString(s) == s
  {
    if s != "" && s[0] != NUL {
      CStringPrefix(s[1..]);
      assert s == [s[0]] + s[1..];
    }
  }

  /** `split_request`: the number of words it announces, and pointers into the buffer, whose spaces become terminators.
      It counts the words of all `length` bytes, but extracts only those before the first NUL; the array has `count`
      pointers, of which `tokens` are set. */
  method SplitRequest(buffer: array<char>, length: nat) returns (count: nat, tokens: seq<nat>)
    requires length < buffer.Length && buffer[length] == NUL
    modifies buffer
    ensures var s := old(buffer[..length]);
            var p := CString(s);
            && |p| <= length && buffer[..|p|] == CutBuffer(p, |p|) && buffer[|p|..] == old(buffer[|p|..])
            && (forall k | 0 <= k < |p| :: buffer[k] == if p[k] in " \t\n\r" then NUL else p[k])
            && count == |Spans(RequestSpace, s, 0)|
            && |tokens| == |Spans(RequestSpace, p, 0)| <= count
            && forall k | 0 <= k < |tokens| :: tokens[k] == Spans(RequestSpace, p, 0)[k].lo
  {
    hide Spans, Skip, Stop, CutBuffer, CString;
    ghost var s := buffer[..length];
    ghost var p := CString(s);
    ghost var n := |p|;
    ghost var rs := Spans(RequestSpace, p, 0);
    TextBeforeNul(buffer, length);
    Uncut(p);
    count := 0;
    tokens := [];
    if length == 0 {
      NoWords(s);
    } else {
      count := CountWords(RequestSpace, buffer[..length]);
      var result := new nat[count](_ => 0);
      var data, index := 0, 0;
      while index < count
        invariant 0 <= index <= |rs| <= count && 0 <= data <= n
        invariant Spans(RequestSpace, p, data) == rs[index..]
        invariant buffer[..n] == CutBuffer(p, data) && buffer[n] == NUL && buffer[n..] == old(buffer[n..])
        invariant forall k | 0 <= k < index :: result[k] == rs[k].lo
      {
        NextSpan(RequestSpace, p, data, rs, index);
        data := BlankOut(buffer, n, data, p);
        StillThere(buffer, n, data, p);
        if buffer[data] == NUL { break; }
        result[index] := data;
        data := WordEnd(buffer, n, data, p);
        index := index + 1;
      }
      assert index == |rs|;
      NextSpan(RequestSpace, p, data, rs, index);
      data := BlankOut(buffer, n, data, p);
      tokens := result[..index];
    }
    CutMeans(p, buffer[..n]);
    assert forall k | 0 <= k < n :: buffer[k] == buffer[..n][k];
  }

  lemma CutMeans(s: string, b: string)
    requires b == CutBuffer(s, |s|)
    ensures forall k | 0 <= k < |s| :: b[k] == if s[k] in " \t\n\r" then NUL else s[k]
  {
  }

  lemma TextBeforeNul(buffer: array<char>, length: nat)
    requires length < buffer.Length && buffer[length] == NUL
    ensures var p := CString(buffer[..length]);
            && |p| <= length && NUL !in p && buffer[..|p|] == p && buffer[|p|] == NUL
            && |Spans(RequestSpace, p, 0)| <= |Spans(RequestSpace, buffer[..length], 0)|
  {
    hide Spans, Stop, CString;
    var s := buffer[..length];
    var p := CString(s);
    CStringPrefix(s);
    PrefixTake(p, s);
    assert buffer[..|p|] == s[..|p|];
    if |p| < length { CountPast(RequestSpace, s, |p|, 0); }
  }

  lemma PrefixTake(p: string, s: string)
    requires p <= s
    ensures s[..|p|] == p && (|p| == |s| ==> p == s)
  {
  }

  /** What the counting pass sees behind a position that is no space: one word more, unless that position continues a
      word, and all words behind it. */
  lemma {:induction false} CountPast(space: char -> bool, s: string, n: nat, k: nat)
    requires k <= n < |s| && !space(s[n])
    ensures |Spans(space, s, k)| == |Spans(space, s[..n], k)| + (if k < n && !space(s[n - 1]) then 0 else 1)
                                    + |Spans(space, s, Stop(space, s, n))|
    decreases n - k
  {
    var p, lo := s[..n], Skip(space, s, k);
    SkipIs(space, p, k, lo);
    if lo < n {
      var hi := Stop(space, s, lo);
      if hi < n {
        StopIs(space, p, lo, hi);
        CountPast(space, s, n, hi);
      } else {
        StopIs(space, p, lo, n);
        StopIs(space, s, n, hi);
      }
    }
  }

  /** No NUL, or one that stands directly behind a word, with only spaces behind the run it belongs to. */
  predicate Unbroken(space: char -> bool, s: string) {
    var p := CString(s);
    |p| < |s| ==> p != "" && !space(p[|p| - 1])
                  && forall k | Stop(space, s, |p|) <= k < |s| :: space(s[k])
  }

  /** Every announced pointer is set exactly for the unbroken requests. */
  lemma EveryPointerIff(space: char -> bool, s: string)
    requires !space(NUL)
    ensures |Spans(space, CString(s), 0)| == |Spans(space, s, 0)| <==> Unbroken(space, s)
  {
    hide Spans, Stop, CString;
    var p := CString(s);
    CStringPrefix(s);
    PrefixTake(p, s);
    if |p| < |s| {
      CountPast(space, s, |p|, 0);
      NoSpans(space, s, Stop(space, s, |p|));
    }
  }

  lemma NoSpans(space: char -> bool, s: string, k: nat)
    requires k <= |s|
    ensures Spans(space, s, k) == [] <==> forall i | k <= i < |s| :: space(s[i])
  {
    if forall i | k <= i < |s| :: space(s[i]) { SkipIs(space, s, k, |s|); }
  }

  /** A NUL inside a request: here the second pointer is counted and never set. */
  lemma NulBetweenWords()
    ensures !Unbroken(RequestSpace, "get\0 a")
  {
    var s := "get\0 a";
    CStringIs(s, 3);
    StopIs(RequestSpace, s, 3, 4);
    assert CString(s) == "get" && !RequestSpace(s[5]);
  }

  /** Here it does no harm. */
  lemma NulBehindWord()
    ensures Unbroken(RequestSpace, "get a\0")
  {
    var s := "get a\0";
    CStringIs(s, 5);
    StopIs(RequestSpace, s, 5, 6);
    assert CString(s) == "get a" && !RequestSpace(CString(s)[4]);
  }

  lemma Uncut(s: string)
    ensures CutBuffer(s, 0) == s
  {
  }

  /** A character that is no space is still in the buffer; the terminator stands behind the text only. */
  lemma StillThere(buffer: array<char>, length: nat, k: nat, s: string)
    requires k <= length == |s| && length < buffer.Length && NUL !in s && buffer[..length] == CutBuffer(s, k)
    requires buffer[length] == NUL
    ensures buffer[k] == NUL <==> k == |s|
  {
    if k < |s| { assert buffer[k] == buffer[..length][k] && s[k] in s; }
  }

  /** Run to the end of the word. */
  method WordEnd(buffer: array<char>, ghost length: nat, begin: nat, ghost s: string) returns (data: nat)
    requires begin <= length == |s| && length < buffer.Length && buffer[length] == NUL && NUL !in s
    requires buffer[..length] == CutBuffer(s, begin)
    ensures data == Stop(RequestSpace, s, begin) && buffer[..length] == CutBuffer(s, data)
  {
    data := begin;
    while !RequestSpace(buffer[data]) && buffer[data] != NUL
      invariant begin <= data <= length && Stop(RequestSpace, s, data) == Stop(RequestSpace, s, begin)
      invariant buffer[..length] == CutBuffer(s, data)
      decreases length - data
    {
      assert buffer[data] == buffer[..length][data] == s[data];
      assert CutBuffer(s, data + 1) == CutBuffer(s, data);
      data := data + 1;
    }
    if data < length { assert buffer[data] == buffer[..length][data] == s[data] && s[data] in s; }
  }

  /** Overwrite spaces from `data` on; return the next position that is none. */
  method BlankOut(buffer: array<char>, ghost length: nat, data: nat, ghost s: string) returns (next: nat)
    requires data <= length == |s| && length < buffer.Length && buffer[length] == NUL
    requires buffer[..length] == CutBuffer(s, data)
    modifies buffer
    ensures next == Skip(RequestSpace, s, data) && buffer[..length] == CutBuffer(s, next)
    ensures buffer[length] == NUL && buffer[length..] == old(buffer[length..])
  {
    next := data;
    while RequestSpace(buffer[next])
      invariant data <= next <= length && Skip(RequestSpace, s, next) == Skip(RequestSpace, s, data)
      invariant buffer[..length] == CutBuffer(s, next)
      invariant buffer[length] == NUL && buffer[length..] == old(buffer[length..])
      decreases length - next
    {
      assert buffer[next] == buffer[..length][next] == s[next];
      buffer[next] := NUL;
      assert buffer[..length] == CutBuffer(s, next)[next := NUL] == CutBuffer(s, next + 1);
      next := next + 1;
    }
    if next < length { assert buffer[next] == buffer[..length][next] == s[next]; }
  }

  lemma NoWords(s: string)
    requires s == ""
    ensures Spans(RequestSpace, s, 0) == [] && CutBuffer(s, 0) == s
  {
  }

  /** The next word, if there is one; else only spaces remain. */
  lemma NextSpan(space: char -> bool, s: string, k: nat, rs: seq<Span>, n: nat)
    requires k <= |s| && n <= |rs| && Spans(space, s, k) == rs[n..]
    ensures var lo := Skip(space, s, k);
            && (lo == |s| <==> n == |rs|) && Spans(space, s, lo) == rs[n..]
            && (n < |rs| ==> rs[n] == Span(lo, Stop(space, s, lo)) && Spans(space, s, Stop(space, s, lo)) == rs[n + 1..])
  {
    if n < |rs| { FirstSpan(space, s, k, rs, n); }
  }

  /** The C string at each pointer is the word itself. */
  lemma PointersReadWords(s: string, b: string, k: nat)
    requires NUL !in s && k < |Spans(RequestSpace, s, 0)| && CutBuffer(s, |s|) + [NUL] <= b
    ensures var lo := Spans(RequestSpace, s, 0)[k].lo;
            lo < |s| < |b| && CString(b[lo..]) == WordsOf(RequestSpace, s)[k]
  {
    var rs := Spans(RequestSpace, s, 0);
    SpansAreRuns(RequestSpace, s, 0);
    var r := rs[k];
    assert r in rs;
    RunInCutBuffer(s, b, r);
    CStringIs(b[r.lo..], r.hi - r.lo);
  }

  /** A run stands in the cut buffer as it was, with a terminator behind it. */
  lemma RunInCutBuffer(s: string, b: string, r: Span)
    requires NUL !in s && IsRun(RequestSpace, s, r) && CutBuffer(s, |s|) + [NUL] <= b
    ensures r.hi < |b| && b[r.lo..][..r.hi - r.lo] == s[r.lo..r.hi] && b[r.lo..][r.hi - r.lo] == NUL
    ensures NUL !in s[r.lo..r.hi]
  {
    var c := CutBuffer(s, |s|) + [NUL];
    assert |c| == |s| + 1 && b[r.hi] == c[r.hi];
    forall i | r.lo <= i < r.hi ensures b[i] == s[i] { assert b[i] == c[i]; }
  }

  // ---- the words take no more room than the text ----

  function TotalLength(ws: seq<string>): nat {
    if ws == [] then 0 else |ws[0]| + TotalLength(ws[1..])
  }

  lemma {:induction false} WordsFit(space: char -> bool, s: string, k: nat)
    requires k <= |s|
    ensures TotalLength(Slices(s, Spans(space, s, k))) <= |s| - k
    decreases |s| - k
  {
    var lo := Skip(space, s, k);
    if lo < |s| {
      var hi := Stop(space, s, lo);
      WordsFit(space, s, hi);
      FirstSlice(s, Span(lo, hi), Spans(space, s, hi));
    }
  }

  // ---- the separators ----

  lemma BetweenLetters(space: char -> bool, c: char)
    requires !space('a') && !space('b')
    ensures WordsOf(space, ['a', c, 'b']) == if space(c) then ["a", "b"] else [['a', c, 'b']]
  {
    hide Spans, Slices, Skip, Stop;
    var s := ['a', c, 'b'];
    var seps, ws := if space(c) then ["", [c], ""] else ["", ""], if space(c) then ["a", "b"] else [s];
    assert Joinable(space, seps, ws);
    JoinThree(c, space(c));
    SplitUndoesJoin(space, seps, ws);
  }

  lemma JoinThree(c: char, apart: bool)
    ensures Join(if apart then ["", [c], ""] else ["", ""], if apart then ["a", "b"] else [['a', c, 'b']]) == ['a', c, 'b']
  {
    if apart {
      assert ["", [c], ""][1..] == [[c], ""] && [[c], ""][1..] == [""] && ["a", "b"][1..] == ["b"] && ["b"][1..] == [];
      assert Join([""], []) == "" && Join([[c], ""], ["b"]) == [c] + "b" + "";
    } else {
      assert ["", ""][1..] == [""] && [['a', c, 'b']][1..] == [];
      assert Join([""], []) == "";
    }
  }

  /** What separates the words of a line: exactly blank, tab, newline, vertical tab, form feed and carriage return; of a
      request, exactly blank, tab, newline and carriage return. */
  lemma Separators(c: char)
    ensures WordsOf(LineSpace, ['a', c, 'b']) == ["a", "b"] <==> c in " \t\n\U{0b}\U{0c}\r"
    ensures WordsOf(RequestSpace, ['a', c, 'b']) == ["a", "b"] <==> c in " \t\n\r"
  {
    hide WordsOf;
    BetweenLetters(LineSpace, c);
    BetweenLetters(RequestSpace, c);
    assert |[['a', c, 'b']]| != |["a", "b"]|;
  }

  // ---- the two agree ----

  lemma {:induction false} SpansAgree(p: char -> bool, q: char -> bool, s: string, k: nat)
    requires k <= |s| && forall i | 0 <= i < |s| :: p(s[i]) == q(s[i])
    ensures Spans(p, s, k) == Spans(q, s, k)
    decreases |s| - k
  {
    var lo := Skip(p, s, k);
    SkipIs(q, s, k, lo);
    if lo < |s| {
      var hi := Stop(p, s, lo);
      StopIs(q, s, lo, hi);
      SpansAgree(p, q, s, hi);
    }
  }

  /** Without vertical tabs and form feeds the two tokenisers find the same words. */
  lemma TokenisersAgree(s: string)
    requires '\U{0b}' !in s && '\U{0c}' !in s
    ensures WordsOf(LineSpace, s) == WordsOf(RequestSpace, s)
  {
    forall i | 0 <= i < |s| ensures LineSpace(s[i]) == RequestSpace(s[i]) { assert s[i] in s; }
    SpansAgree(LineSpace, RequestSpace, s, 0);
  }
}
