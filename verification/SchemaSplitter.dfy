/** Splitting a schema file into statements: drop line comments, split at semicolons, trim. */
module SchemaSplitter {

  /** Python's str.isspace for a single character. */
  predicate IsSpace(c: char) {
    var n := c as int;
    || 0x09 <= n <= 0x0D || 0x1C <= n <= 0x20 || n == 0x85 || n == 0xA0 || n == 0x1680
    || 0x2000 <= n <= 0x200A || n == 0x2028 || n == 0x2029 || n == 0x202F || n == 0x205F || n == 0x3000
  }

  /** The rest of the text from the next newline on. */
  function SkipLine(t: string): (r: string)
    ensures |r| <= |t| && (r == "" || r[0] == '\n')
  {
    if |t| == 0 || t[0] == '\n' then t else SkipLine(t[1..])
  }

  predicate StartsComment(t: string) {
    |t| >= 2 && t[0] == '-' && t[1] == '-'
  }

  /** Removes every match of two dashes up to the end of the line, leftmost first. */
  function StripComments(t: string): string
    decreases |t|
  {
    if |t| == 0 then ""
    else if StartsComment(t) then StripComments(SkipLine(t[1..]))
    else [t[0]] + StripComments(t[1..])
  }

  /** Python's text.split(";"): always one piece more than there are semicolons. */
  function SplitOn(t: string): (r: seq<string>)
    ensures |r| >= 1
  {
    if |t| == 0 then [""]
    else
      var rest := SplitOn(t[1..]);
      if t[0] == ';' then [""] + rest else [[t[0]] + rest[0]] + rest[1..]
  }

  function StripLeft(t: string): string {
    if |t| > 0 && IsSpace(t[0]) then StripLeft(t[1..]) else t
  }

  function StripRight(t: string): string {
    if |t| > 0 && IsSpace(t[|t| - 1]) then StripRight(t[..|t| - 1]) else t
  }

  function Strip(t: string): string { StripRight(StripLeft(t)) }

  /** The non-blank pieces, trimmed and ended by a semicolon. */
  function Statements(pieces: seq<string>): seq<string> {
    if |pieces| == 0 then []
    else
      var s := Strip(pieces[0]);
      (if s != "" then [s + ";"] else []) + Statements(pieces[1..])
  }

  function SplitStatements(t: string): seq<string> {
    Statements(SplitOn(StripComments(t)))
  }

  function Join(items: seq<string>): string {
    if |items| == 0 then "" else items[0] + Join(items[1..])
  }

  // ---------- comments ----------

  ghost predicate NoComment(t: string) {
    forall k :: 0 <= k < |t| - 1 ==> !(t[k] == '-' && t[k + 1] == '-')
  }

  /** What is left after stripping contains no comment: removing one never makes another. */
  lemma {:induction false} StrippedHasNoComment(t: string)
    ensures NoComment(StripComments(t))
    ensures t != "" && !StartsComment(t) ==> StripComments(t) != "" && StripComments(t)[0] == t[0]
    ensures StartsComment(t) ==> StripComments(t) == "" || StripComments(t)[0] == '\n'
    decreases |t|
  {
    if t != "" {
      if StartsComment(t) {
        var rest := SkipLine(t[1..]);
        StrippedHasNoComment(rest);
      } else {
        StrippedHasNoComment(t[1..]);
      }
    }
  }

  lemma TailNoComment(t: string)
    requires t != "" && NoComment(t)
    ensures NoComment(t[1..])
  {
    var u := t[1..];
    forall k | 0 <= k < |u| - 1 ensures !(u[k] == '-' && u[k + 1] == '-') {
      assert u[k] == t[k + 1] && u[k + 1] == t[(k + 1) + 1];
    }
  }

  lemma {:induction false} NothingToStrip(t: string)
    requires NoComment(t)
    ensures StripComments(t) == t
  {
    if t != "" {
      TailNoComment(t);
      NothingToStrip(t[1..]);
      assert [t[0]] + t[1..] == t;
    }
  }

  /** A comment starting at q is still open just before position e. */
  ghost predicate CommentCovers(t: string, q: nat, e: nat)
    requires e <= |t|
  {
    && q + 1 < |t| && t[q] == '-' && t[q + 1] == '-'
    && forall k :: q <= k < e ==> t[k] != '\n'
  }

  ghost predicate OpenBefore(t: string, e: nat)
    requires e <= |t|
  {
    exists q :: 0 <= q < e && CommentCovers(t, q, e)
  }

  /** Position p of the text lies in a comment: two dashes start at or before it on its line. */
  ghost predicate InComment(t: string, p: nat)
    requires p < |t|
  {
    OpenBefore(t, p + 1)
  }

  /** The characters from position p on that lie in no comment. */
  ghost function Kept(t: string, p: nat): string
    requires p <= |t|
    decreases |t| - p
  {
    if p == |t| then "" else (if InComment(t, p) then "" else [t[p]]) + Kept(t, p + 1)
  }

  lemma {:induction false} CommentBodyDropped(t: string, q: nat, p: nat)
    requires q < p <= |t| && CommentCovers(t, q, p)
    ensures var e := |t| - |SkipLine(t[p..])|;
            && p <= e <= |t| && SkipLine(t[p..]) == t[e..] && CommentCovers(t, q, e)
            && (e < |t| ==> t[e] == '\n') && Kept(t, p) == Kept(t, e)
    decreases |t| - p
  {
    if p < |t| && t[p] != '\n' {
      assert CommentCovers(t, q, p + 1);
      assert t[p..][1..] == t[p + 1..];
      CommentBodyDropped(t, q, p + 1);
      assert InComment(t, p);
    }
  }

  /** Exactly the characters outside comments survive. */
  lemma {:induction false} StripKeeps(t: string, p: nat)
    requires p <= |t| && !OpenBefore(t, p)
    ensures StripComments(t[p..]) == Kept(t, p)
    decreases |t| - p
  {
    hide CommentCovers, InComment, OpenBefore, StartsComment, SkipLine;
    if p < |t| {
      var u := t[p..];
      assert u[1..] == t[p + 1..];
      if StartsComment(u) {
        CommentStarts(t, p);
        CommentBodyDropped(t, p, p + 1);
        var e := |t| - |SkipLine(t[p + 1..])|;
        LineEndKept(t, e);
        if e < |t| {
          NewlineStays(t, e);
          StripKeeps(t, e + 1);
        }
      } else {
        NotInComment(t, p);
        StripKeeps(t, p + 1);
      }
    }
  }

  lemma CommentStarts(t: string, p: nat)
    requires p < |t| && StartsComment(t[p..])
    ensures CommentCovers(t, p, p + 1) && InComment(t, p)
  {
  }

  lemma NewlineStays(t: string, e: nat)
    requires e < |t| && t[e] == '\n'
    ensures StripComments(t[e..]) == ['\n'] + StripComments(t[e + 1..])
  {
    assert t[e..][1..] == t[e + 1..];
  }

  /** A newline ends every comment. */
  lemma LineEndKept(t: string, e: nat)
    requires e <= |t| && (e < |t| ==> t[e] == '\n')
    ensures e < |t| ==> !InComment(t, e) && !OpenBefore(t, e + 1)
  {
  }

  lemma NotInComment(t: string, p: nat)
    requires p < |t| && !OpenBefore(t, p) && !StartsComment(t[p..])
    ensures !InComment(t, p) && !OpenBefore(t, p + 1)
  {
    var e := p + 1;
    forall q | 0 <= q < e ensures !CommentCovers(t, q, e) {
      if q < p {
        assert !CommentCovers(t, q, p);
      }
    }
  }

  /** The whole text: stripping keeps exactly the characters outside comments. */
  lemma StripKeepsAll(t: string)
    ensures StripComments(t) == Kept(t, 0)
  {
    assert t[0..] == t;
    StripKeeps(t, 0);
  }

  // ---------- statements ----------

  ghost predicate NoSemicolon(t: string) {
    forall k :: 0 <= k < |t| ==> t[k] != ';'
  }

  ghost predicate Trimmed(t: string) {
    t != "" ==> !IsSpace(t[0]) && !IsSpace(t[|t| - 1])
  }

  /** The text of one statement, without its semicolon. */
  ghost predicate IsBody(s: string) {
    s != "" && Trimmed(s) && NoSemicolon(s) && NoComment(s)
  }

  ghost predicate IsStatement(item: string) {
    item != "" && item[|item| - 1] == ';' && IsBody(item[..|item| - 1])
  }

  ghost predicate AllStatements(items: seq<string>) {
    forall k :: 0 <= k < |items| ==> IsStatement(items[k])
  }

  lemma {:induction false} StripLeftIsSuffix(t: string)
    ensures exists i :: 0 <= i <= |t| && StripLeft(t) == t[i..]
    ensures StripLeft(t) != "" ==> !IsSpace(StripLeft(t)[0])
  {
    if |t| > 0 && IsSpace(t[0]) {
      StripLeftIsSuffix(t[1..]);
      var i :| 0 <= i <= |t[1..]| && StripLeft(t[1..]) == t[1..][i..];
      assert t[1..][i..] == t[i + 1..];
    } else {
      assert t[0..] == t;
    }
  }

  lemma {:induction false} StripRightIsPrefix(t: string)
    ensures StripRight(t) <= t
    ensures StripRight(t) != "" ==> !IsSpace(StripRight(t)[|StripRight(t)| - 1])
  {
    if |t| > 0 && IsSpace(t[|t| - 1]) {
      StripRightIsPrefix(t[..|t| - 1]);
    }
  }

  ghost predicate Blank(t: string) {
    forall k :: 0 <= k < |t| ==> IsSpace(t[k])
  }

  lemma {:induction false} StripLeftDropsBlank(t: string) returns (left: string)
    ensures Blank(left) && t == left + StripLeft(t)
  {
    if |t| > 0 && IsSpace(t[0]) {
      var rest := StripLeftDropsBlank(t[1..]);
      left := [t[0]] + rest;
      assert t == [t[0]] + t[1..];
    } else {
      left := "";
    }
  }

  lemma {:induction false} StripRightDropsBlank(t: string) returns (right: string)
    ensures Blank(right) && t == StripRight(t) + right
  {
    if |t| > 0 && IsSpace(t[|t| - 1]) {
      var init := t[..|t| - 1];
      var rest := StripRightDropsBlank(init);
      right := rest + [t[|t| - 1]];
      assert t == init + [t[|t| - 1]];
    } else {
      right := "";
    }
  }

  /** Trimming takes white space off both ends, and nothing else. */
  lemma StripParts(t: string) returns (left: string, right: string)
    ensures Blank(left) && Blank(right) && t == left + Strip(t) + right
  {
    left := StripLeftDropsBlank(t);
    right := StripRightDropsBlank(StripLeft(t));
    assert left + (Strip(t) + right) == left + Strip(t) + right;
  }

  lemma StripIsTrimmed(t: string)
    ensures Trimmed(Strip(t))
  {
    hide IsSpace, StripLeft, StripRight;
    StripLeftIsSuffix(t);
    StripRightIsPrefix(StripLeft(t));
  }

  /** Trimming gives a trimmed slice of its argument. */
  lemma StripIsSlice(t: string)
    ensures Trimmed(Strip(t))
    ensures exists i, j :: 0 <= i <= j <= |t| && Strip(t) == t[i..j]
  {
    hide Strip, Trimmed;
    StripIsTrimmed(t);
    var left, right := StripParts(t);
    assert t[|left|..|left| + |Strip(t)|] == Strip(t);
  }

  lemma SliceKeepsClean(t: string, i: nat, j: nat)
    requires i <= j <= |t| && NoSemicolon(t) && NoComment(t)
    ensures NoSemicolon(t[i..j]) && NoComment(t[i..j])
  {
    var u := t[i..j];
    forall k | 0 <= k < |u| - 1 ensures !(u[k] == '-' && u[k + 1] == '-') {
      assert u[k] == t[i + k] && u[k + 1] == t[(i + k) + 1];
    }
  }

  lemma {:induction false} PiecesAreClean(t: string)
    requires NoComment(t)
    ensures forall k :: 0 <= k < |SplitOn(t)| ==> NoSemicolon(SplitOn(t)[k]) && NoComment(SplitOn(t)[k])
    ensures SplitOn(t)[0] <= t
  {
    if t != "" {
      TailNoComment(t);
      PiecesAreClean(t[1..]);
      var rest, all := SplitOn(t[1..]), SplitOn(t);
      if t[0] != ';' {
        var head := [t[0]] + rest[0];
        assert head <= t;
        forall k | 0 <= k < |head| - 1 ensures !(head[k] == '-' && head[k + 1] == '-') {
          assert head[k] == t[k] && head[k + 1] == t[k + 1];
        }
        assert all == [head] + rest[1..];
      }
    }
  }

  lemma {:induction false} StatementsOfClean(pieces: seq<string>)
    requires forall k :: 0 <= k < |pieces| ==> NoSemicolon(pieces[k]) && NoComment(pieces[k])
    ensures AllStatements(Statements(pieces))
  {
    if pieces != [] {
      StatementsOfClean(pieces[1..]);
      StripIsSlice(pieces[0]);
      var i, j :| 0 <= i <= j <= |pieces[0]| && Strip(pieces[0]) == pieces[0][i..j];
      SliceKeepsClean(pieces[0], i, j);
      var s := Strip(pieces[0]);
      assert (s + ";")[..|s|] == s;
    }
  }

  /** Every item is trimmed, free of comments, and has one semicolon: its last character. */
  lemma ItemsAreStatements(t: string)
    ensures AllStatements(SplitStatements(t))
  {
    StrippedHasNoComment(t);
    PiecesAreClean(StripComments(t));
    StatementsOfClean(SplitOn(StripComments(t)));
  }

  // ---------- splitting the output again ----------

  lemma StripOfTrimmed(s: string)
    requires Trimmed(s)
    ensures Strip(s) == s
  {
  }

  lemma {:induction false} SplitFirst(s: string, rest: string)
    requires NoSemicolon(s)
    ensures SplitOn(s + ";" + rest) == [s] + SplitOn(rest)
  {
    var t := s + ";" + rest;
    if s == "" {
      assert t == ";" + rest && t[1..] == rest;
    } else {
      assert t[1..] == s[1..] + ";" + rest;
      SplitFirst(s[1..], rest);
      assert [s[0]] + s[1..] == s;
    }
  }

  lemma {:induction false} JoinHasNoComment(items: seq<string>)
    requires AllStatements(items)
    ensures NoComment(Join(items))
  {
    if items != [] {
      JoinHasNoComment(items[1..]);
      var item, rest := items[0], Join(items[1..]);
      var n := |item|;
      var t := item + rest;
      forall k | 0 <= k < |t| - 1 ensures !(t[k] == '-' && t[k + 1] == '-') {
        if k < n - 2 {
          assert t[k] == item[..n - 1][k] && t[k + 1] == item[..n - 1][k + 1];
        } else if k < n {
          assert t[n - 1] == ';';
        } else {
          assert t[k] == rest[k - n] && t[k + 1] == rest[(k - n) + 1];
        }
      }
    }
  }

  lemma {:induction false} SplitOfJoin(items: seq<string>)
    requires AllStatements(items)
    ensures Statements(SplitOn(Join(items))) == items
  {
    if items == [] {
      assert Strip("") == "";
      assert SplitOn("") == [""];
    } else {
      hide IsSpace, Strip, NoComment;
      var item := items[0];
      var s := item[..|item| - 1];
      assert item == s + ";";
      SplitFirst(s, Join(items[1..]));
      StripOfTrimmed(s);
      SplitOfJoin(items[1..]);
      var pieces := SplitOn(Join(items));
      assert pieces[0] == s && pieces[1..] == SplitOn(Join(items[1..]));
    }
  }

  /** Stability: joining the statements and splitting again gives the same statements. */
  lemma SplitterIsStable(t: string)
    ensures SplitStatements(Join(SplitStatements(t))) == SplitStatements(t)
  {
    var items := SplitStatements(t);
    ItemsAreStatements(t);
    JoinHasNoComment(items);
    NothingToStrip(Join(items));
    SplitOfJoin(items);
  }

  // ---------- where the statements are in the text ----------

  /** The usual blanks are white space; no letter, digit or punctuation mark is. */
  lemma SpacesMean(c: char)
    ensures c == ' ' || c == '\n' || c == '\r' || c == '\t' || c == '\U{00A0}' || c == '\U{3000}' ==> IsSpace(c)
    ensures '!' <= c <= '~' ==> !IsSpace(c)
  {
  }

  /** Only white space and semicolons. */
  ghost predicate IsGap(t: string) {
    forall k :: 0 <= k < |t| ==> IsSpace(t[k]) || t[k] == ';'
  }

  /** The pieces with a semicolon between each two. */
  function Separated(pieces: seq<string>): string
    requires pieces != []
  {
    if |pieces| == 1 then pieces[0] else pieces[0] + ";" + Separated(pieces[1..])
  }

  lemma {:induction false} SplitSeparates(t: string)
    ensures Separated(SplitOn(t)) == t
  {
    if t != "" {
      SplitSeparates(t[1..]);
      var rest, all := SplitOn(t[1..]), SplitOn(t);
      assert t == [t[0]] + t[1..];
      if t[0] == ';' {
        assert all[1..] == rest;
      } else {
        assert all[0] == [t[0]] + rest[0] && all[1..] == rest[1..];
      }
    }
  }

  ghost predicate NonEmpty(items: seq<string>) {
    forall k :: 0 <= k < |items| ==> items[k] != ""
  }

  /** The statements' texts, without their semicolons, between the given gaps. */
  ghost function Weave(gaps: seq<string>, items: seq<string>): string
    requires |gaps| == |items| + 1 && NonEmpty(items)
  {
    if |items| == 0 then gaps[0]
    else gaps[0] + items[0][..|items[0]| - 1] + Weave(gaps[1..], items[1..])
  }

  ghost predicate GapsBetween(gaps: seq<string>, n: nat) {
    && |gaps| == n + 1 && (forall k :: 0 <= k <= n ==> IsGap(gaps[k]))
    && (forall k :: 0 < k < n ==> ';' in gaps[k])
  }

  /** A blank piece only widens the first gap. */
  lemma WovenBlank(p: string, rest: seq<string>, items: seq<string>) returns (gaps: seq<string>)
    requires Blank(p) && GapsBetween(rest, |items|) && NonEmpty(items)
    ensures GapsBetween(gaps, |items|) && Weave(gaps, items) == p + ";" + Weave(rest, items)
  {
    hide IsSpace, Weave;
    gaps := [p + ";" + rest[0]] + rest[1..];
    WeaveFirst(gaps, rest, items, p + ";");
  }

  /** Any other piece puts its statement before the others. */
  lemma WovenItem(left: string, s: string, right: string, rest: seq<string>, items: seq<string>)
    returns (gaps: seq<string>)
    requires Blank(left) && Blank(right) && s != "" && GapsBetween(rest, |items|) && NonEmpty(items)
    ensures GapsBetween(gaps, |items| + 1)
    ensures Weave(gaps, [s + ";"] + items) == left + s + right + ";" + Weave(rest, items)
  {
    hide IsSpace;
    var tail := [right + ";" + rest[0]] + rest[1..];
    gaps := [left] + tail;
    GapBeforeItem(left, right, rest, |items|);
    var all := [s + ";"] + items;
    assert all[1..] == items && gaps[1..] == tail && all[0][..|all[0]| - 1] == s;
    WeaveFirst(tail, rest, items, right + ";");
    hide Weave;
    assert left + s + (right + ";" + Weave(rest, items)) == left + s + right + ";" + Weave(rest, items);
  }

  lemma GapBeforeItem(left: string, right: string, rest: seq<string>, n: nat)
    requires Blank(left) && Blank(right) && GapsBetween(rest, n)
    ensures GapsBetween([left] + ([right + ";" + rest[0]] + rest[1..]), n + 1)
  {
    hide IsSpace;
    var tail := [right + ";" + rest[0]] + rest[1..];
    assert (right + ";" + rest[0])[|right|] == ';';
    forall k | 0 < k < n + 1 ensures ';' in ([left] + tail)[k] {
      assert ([left] + tail)[k] == tail[k - 1];
    }
  }

  lemma {:induction false} StatementsWoven(pieces: seq<string>) returns (gaps: seq<string>)
    requires pieces != []
    ensures GapsBetween(gaps, |Statements(pieces)|) && NonEmpty(Statements(pieces))
    ensures Weave(gaps, Statements(pieces)) == Separated(pieces)
  {
    hide Strip, IsSpace, GapsBetween, NonEmpty, Weave;
    var p := pieces[0];
    var s, rest, items := Strip(p), [""], Statements(pieces[1..]);
    var left, right := StripParts(p);
    if |pieces| == 1 {
      assert items == [] && Statements(pieces) == if s == "" then [] else [s + ";"];
      gaps := LastWoven(p, left, s, right);
    } else {
      rest := StatementsWoven(pieces[1..]);
      if s == "" {
        assert Blank(p) && Statements(pieces) == items;
        gaps := WovenBlank(p, rest, items);
      } else {
        gaps := WovenItem(left, s, right, rest, items);
      }
    }
    NonEmptyStatements(pieces);
  }

  lemma LastWoven(p: string, left: string, s: string, right: string) returns (gaps: seq<string>)
    requires Blank(left) && Blank(right) && p == left + s + right
    ensures var items := if s == "" then [] else [s + ";"];
            GapsBetween(gaps, |items|) && Weave(gaps, items) == p
  {
    hide IsSpace;
    gaps := if s == "" then [p] else [left, right];
    assert (s + ";")[..|s|] == s;
  }

  lemma {:induction false} NonEmptyStatements(pieces: seq<string>)
    ensures NonEmpty(Statements(pieces))
  {
    hide Strip;
    if pieces != [] {
      NonEmptyStatements(pieces[1..]);
    }
  }

  /** Text put before the first gap comes before the whole. */
  lemma WeaveFirst(gaps: seq<string>, rest: seq<string>, items: seq<string>, head: string)
    requires |rest| == |items| + 1 && NonEmpty(items)
    requires gaps == [head + rest[0]] + rest[1..]
    ensures Weave(gaps, items) == head + Weave(rest, items)
  {
    assert gaps[1..] == rest[1..];
  }

  /**
   Exactly which pieces of the text become statements: outside comments the text
   is the statements in order, with only white space and semicolons around them,
   and a semicolon between any two; inside a statement there is none.
   */
  lemma StatementsInText(t: string) returns (gaps: seq<string>)
    ensures GapsBetween(gaps, |SplitStatements(t)|) && AllStatements(SplitStatements(t))
    ensures Weave(gaps, SplitStatements(t)) == Kept(t, 0)
  {
    ItemsAreStatements(t);
    StripKeepsAll(t);
    SplitSeparates(StripComments(t));
    gaps := StatementsWoven(SplitOn(StripComments(t)));
  }

  // ---------- nothing significant is lost ----------

  /** The characters that are neither white space nor semicolons. */
  function Significant(t: string): string {
    if |t| == 0 then ""
    else (if IsSpace(t[0]) || t[0] == ';' then "" else [t[0]]) + Significant(t[1..])
  }

  lemma {:induction false} SignificantConcat(s: string, t: string)
    ensures Significant(s + t) == Significant(s) + Significant(t)
  {
    if s == "" {
      assert s + t == t;
    } else {
      assert (s + t)[1..] == s[1..] + t;
      SignificantConcat(s[1..], t);
    }
  }

  lemma {:induction false} SignificantStripLeft(t: string)
    ensures Significant(StripLeft(t)) == Significant(t)
  {
    if |t| > 0 && IsSpace(t[0]) {
      SignificantStripLeft(t[1..]);
    }
  }

  lemma {:induction false} SignificantStripRight(t: string)
    ensures Significant(StripRight(t)) == Significant(t)
  {
    if |t| > 0 && IsSpace(t[|t| - 1]) {
      var init, last := t[..|t| - 1], t[|t| - 1];
      assert t == init + [last];
      SignificantConcat(init, [last]);
      SignificantStripRight(init);
    }
  }

  lemma {:induction false} SignificantSplit(t: string)
    ensures Significant(Join(SplitOn(t))) == Significant(t)
  {
    if t != "" {
      SignificantSplit(t[1..]);
      var rest, all := SplitOn(t[1..]), SplitOn(t);
      assert rest == [rest[0]] + rest[1..];
      if t[0] == ';' {
        assert all[0] == "" && all[1..] == rest;
        assert Join(all) == "" + Join(rest) == Join(rest);
      } else {
        assert all[0] == [t[0]] + rest[0] && all[1..] == rest[1..];
        assert Join(all) == [t[0]] + Join(rest);
        SignificantConcat([t[0]], Join(rest));
      }
    }
  }

  lemma {:induction false} SignificantStatements(pieces: seq<string>)
    ensures Significant(Join(Statements(pieces))) == Significant(Join(pieces))
  {
    if pieces != [] {
      var p := pieces[0];
      var s := Strip(p);
      SignificantStatements(pieces[1..]);
      SignificantConcat(p, Join(pieces[1..]));
      SignificantStripLeft(p);
      SignificantStripRight(StripLeft(p));
      SignificantConcat(s, ";");
      if s != "" {
        SignificantConcat(s + ";", Join(Statements(pieces[1..])));
        assert Statements(pieces)[0] == s + ";" && Statements(pieces)[1..] == Statements(pieces[1..]);
        assert Significant(";") == "";
      } else {
        assert Statements(pieces) == Statements(pieces[1..]);
        assert Significant(s) == "";
      }
    }
  }

  /** The statements carry exactly the significant characters that lie outside comments, in order. */
  lemma SplitterKeepsText(t: string)
    ensures Significant(Join(SplitStatements(t))) == Significant(Kept(t, 0))
  {
    StripKeepsAll(t);
    SignificantStatements(SplitOn(StripComments(t)));
    SignificantSplit(StripComments(t));
  }
}
