/** The one-pass, in-place stripper of JSON comments and trailing commas. */
module Json5 {
  import opened Common
  import opened ByteStrings

  const TAB: byte := 9
  const LF: byte := 10
  const CR: byte := 13
  const SPACE: byte := 32
  const QUOTE: byte := 34
  const STAR: byte := 42
  const COMMA: byte := 44
  const SLASH: byte := 47
  const BACKSLASH: byte := 92
  const RBRACKET: byte := 93
  const RBRACE: byte := 125

  predicate IsNL(c: byte) {
    c == LF || c == CR
  }

  predicate IsWS(c: byte) {
    c == SPACE || c == TAB || IsNL(c)
  }

  predicate IsCloser(c: byte) {
    c == RBRACE || c == RBRACKET
  }

  function Spaces(n: nat): (s: Bytes)
    ensures |s| == n && forall i :: 0 <= i < n ==> s[i] == SPACE
  {
    seq(n, _ => SPACE)
  }

  // ---------------------------------------------------------------------------
  // What one scan does, byte by byte
  // ---------------------------------------------------------------------------

  /** Bytes from inside a string through its closing quote, or to the end. */
  function CharsLen(t: Bytes): (n: nat)
    ensures n <= |t|
  {
    if t == [] then 0
    else if t[0] == QUOTE then 1
    else if t[0] == BACKSLASH then if |t| == 1 then 1 else 2 + CharsLen(t[2..])
    else 1 + CharsLen(t[1..])
  }

  /** Bytes before the first line break. */
  function LineLen(t: Bytes): (n: nat)
    ensures n <= |t|
    ensures n < |t| ==> IsNL(t[n])
    ensures forall i :: 0 <= i < n ==> !IsNL(t[i])
  {
    if t == [] || IsNL(t[0]) then 0 else 1 + LineLen(t[1..])
  }

  predicate Closes(t: Bytes) {
    |t| >= 2 && t[0] == STAR && t[1] == SLASH
  }

  /** What one turn of the loop over a block comment's body leaves of the bytes it passes: after a star
      that does not close the comment it steps over the next byte without looking at it. */
  function ScanOne(t: Bytes): (out: Bytes)
    requires t != []
    ensures 1 <= |out| <= |t|
  {
    if t[0] != STAR || |t| == 1 then [SPACE]
    else if t[1] == SLASH then [SPACE, SPACE]
    else [SPACE, t[1]]
  }

  function ScanBlock(t: Bytes): (out: Bytes)
    ensures |out| <= |t|
  {
    if t == [] then []
    else if Closes(t) then ScanOne(t)
    else ScanOne(t) + ScanBlock(t[|ScanOne(t)|..])
  }

  predicate IsLine(t: Bytes) {
    |t| >= 2 && t[0] == SLASH && t[1] == SLASH
  }

  predicate IsBlock(t: Bytes) {
    |t| >= 2 && t[0] == SLASH && t[1] == STAR
  }

  /** What is left of a slash and of the comment it may start. */
  function Comment(t: Bytes): (out: Bytes)
    requires t != []
    ensures 1 <= |out| <= |t|
  {
    if IsLine(t) then Spaces(2 + LineLen(t[2..]))
    else if IsBlock(t) then [SPACE, SPACE] + ScanBlock(t[2..])
    else [t[0]]
  }

  /** As above, for a comment met while looking past a comma: unless a block comment was closed,
      the look-ahead also steps over the byte after it. */
  function Skip(t: Bytes): (out: Bytes)
    requires t != []
    ensures 1 <= |out| <= |t|
  {
    var c := Comment(t);
    if IsBlock(t) || |c| == |t| then c else c + [t[|c|]]
  }

  /** How far the look-ahead past a comma goes, what it leaves of those bytes, and whether a closer follows. */
  datatype Ahead = Ahead(closes: bool, out: Bytes)

  function Look(t: Bytes): (a: Ahead)
    ensures |a.out| <= |t|
    decreases |t|
  {
    if t == [] then Ahead(false, [])
    else if IsCloser(t[0]) then Ahead(true, [])
    else if t[0] == SLASH then
      var c := Skip(t);
      var rest := Look(t[|c|..]);
      Ahead(rest.closes, c + rest.out)
    else if IsWS(t[0]) then
      var rest := Look(t[1..]);
      Ahead(rest.closes, [t[0]] + rest.out)
    else Ahead(false, [])
  }

  /** The whole scan. */
  function Strip(t: Bytes): (out: Bytes)
    ensures |out| == |t|
    decreases |t|
  {
    if t == [] then []
    else if t[0] == QUOTE then
      var n := 1 + CharsLen(t[1..]);
      t[..n] + Strip(t[n..])
    else if t[0] == SLASH then
      Comment(t) + Strip(t[|Comment(t)|..])
    else if t[0] == COMMA then
      var a := Look(t[1..]);
      [if a.closes then SPACE else COMMA] + a.out + Strip(t[1 + |a.out|..])
    else [t[0]] + Strip(t[1..])
  }

  // ---------------------------------------------------------------------------
  // The in-place methods
  // ---------------------------------------------------------------------------

  method BlankLine(s: array<byte>, i: nat) returns (k: nat)
    requires 1 <= i < s.Length && s[i] == SLASH
    modifies s
    ensures k == i + 1 + LineLen(old(s[i + 1..])) && k <= s.Length && (k < s.Length ==> IsNL(s[k]))
    ensures s[..] == old(s[..i - 1]) + Spaces(k - i + 1) + old(s[k..])
  {
    ghost var orig := s[..];
    s[i - 1] := SPACE;
    k := i;
    while k < s.Length && !IsNL(s[k])
      invariant i <= k <= s.Length
      invariant forall j :: 0 <= j < s.Length ==> s[j] == if i - 1 <= j < k then SPACE else orig[j]
      invariant forall j :: i < j < k ==> !IsNL(orig[j])
    {
      s[k] := SPACE;
      k := k + 1;
    }
    LineLenIs(orig[i + 1..], k - i - 1);
    hide LineLen, IsNL;
    assert s[..] == orig[..i - 1] + Spaces(k - i + 1) + orig[k..];
  }

  lemma {:induction false} LineLenIs(t: Bytes, n: nat)
    requires n <= |t| && (forall i :: 0 <= i < n ==> !IsNL(t[i])) && (n < |t| ==> IsNL(t[n]))
    ensures LineLen(t) == n
  {
  }

  /** One turn of the block-comment loop at `k`. */
  method BlankOne(s: array<byte>, k: nat) returns (k': nat, closed: bool)
    requires k < s.Length
    modifies s
    ensures closed == Closes(old(s[k..]))
    ensures var n := k + |ScanOne(old(s[k..]))|;
            if closed then k' == n - 1 && k' < s.Length && s[k'] == SPACE
            else k' == n || (k' == s.Length + 1 && n == s.Length)
    ensures old(s[k]) == SPACE ==> s[..] == old(s[..]) && k' == k + 1 && !closed
    ensures var t := old(s[k..]); s[..] == old(s[..k]) + ScanOne(t) + t[|ScanOne(t)|..]
  {
    ghost var t := s[k..];
    assert k + 1 < s.Length ==> t[1] == s[k + 1];
    k', closed := k, false;
    if s[k'] != STAR {
      s[k'] := SPACE;
    } else {
      s[k'] := SPACE;
      k' := k' + 1;
      if k' < s.Length {
        if s[k'] == SLASH {
          s[k'] := SPACE;
          return k', true;
        }
      }
    }
    k' := k' + 1;
  }

  /** Blanks the slash and the star; the loop's first turn then falls on the star just blanked. */
  method BlankOpening(s: array<byte>, i: nat) returns (k: nat)
    requires 1 <= i < s.Length
    modifies s
    ensures k == i + 1
    ensures s[..k] == old(s[..i - 1]) + [SPACE, SPACE] && s[k..] == old(s[k..])
  {
    s[i - 1] := SPACE;
    s[i] := SPACE;
    var first;
    k, first := BlankOne(s, i);
  }

  /** One turn, seen against the whole body: `m` is where the unseen bytes start. */
  method BlankNext(s: array<byte>, k: nat, ghost orig: Bytes, ghost goal: Bytes)
    returns (k': nat, closed: bool, ghost m: nat)
    requires k < s.Length == |orig| && s[k..] == orig[k..] && goal == s[..k] + ScanBlock(s[k..])
    modifies s
    ensures k < m <= s.Length && s[m..] == orig[m..]
    ensures if closed then k' == m - 1 && s[k'] == SPACE && goal == s[..m]
            else k' > k && m == (if k' <= s.Length then k' else s.Length) && goal == s[..m] + ScanBlock(s[m..])
  {
    hide ScanBlock, ScanOne, Closes;
    ghost var was := s[..];
    k', closed := BlankOne(s, k);
    ScanTurn(was, k, s[..]);
    Shift(orig, k, |ScanOne(was[k..])|);
    m := k + |ScanOne(was[k..])|;
  }

  method BlankBlock(s: array<byte>, i: nat) returns (k: nat)
    requires 1 <= i < s.Length
    modifies s
    ensures var out := [SPACE, SPACE] + ScanBlock(old(s[i + 1..]));
            && s[..] == old(s[..i - 1]) + out + old(s[i - 1 + |out|..])
            && ((k == i - 2 + |out| && k < s.Length && s[k] == SPACE) || (k >= s.Length == i - 1 + |out|))
  {
    hide ScanBlock, ScanOne, Closes;
    ghost var orig := s[..];
    k := BlankOpening(s, i);
    ghost var goal := orig[..i - 1] + ([SPACE, SPACE] + ScanBlock(orig[i + 1..]));
    ghost var m := i + 1;
    Regroup(orig[..i - 1], [SPACE, SPACE], ScanBlock(orig[i + 1..]));
    while k < s.Length
      invariant m == if k <= s.Length then k else s.Length
      invariant s[m..] == orig[m..]
      invariant goal == s[..m] + ScanBlock(s[m..])
    {
      var ended;
      k, ended, m := BlankNext(s, k, orig, goal);
      if ended {
        break;
      }
    }
    if m == s.Length { ScanNothing(s[m..]); }
    BlockDone(orig, i - 1, [SPACE, SPACE] + ScanBlock(orig[i + 1..]), m, s[..]);
  }

  lemma BlockDone(orig: Bytes, p: nat, out: Bytes, m: nat, now: Bytes)
    requires p <= m <= |now| == |orig| && now[m..] == orig[m..] && orig[..p] + out == now[..m]
    ensures m == p + |out| && now == orig[..p] + out + orig[p + |out|..]
  {
    assert now == now[..m] + now[m..];
  }

  lemma ScanNothing(t: Bytes)
    requires t == []
    ensures ScanBlock(t) == []
  {
  }

  /** One turn of the block-comment loop, on values. */
  lemma ScanTurn(was: Bytes, m: nat, now: Bytes)
    requires m < |was| && now == was[..m] + ScanOne(was[m..]) + was[m..][|ScanOne(was[m..])|..]
    ensures var n := m + |ScanOne(was[m..])|;
            && n <= |now| == |was| && now[..n] == was[..m] + ScanOne(was[m..])
            && now[n..] == was[m..][|ScanOne(was[m..])|..]
            && was[..m] + ScanBlock(was[m..]) == if Closes(was[m..]) then now[..n] else now[..n] + ScanBlock(now[n..])
  {
    var t := was[m..];
    ScanUnfold(t);
    hide ScanBlock, ScanOne, Closes;
    Regroup(was[..m], ScanOne(t), ScanBlock(t[|ScanOne(t)|..]));
  }

  lemma ScanUnfold(t: Bytes)
    requires t != []
    ensures ScanBlock(t) == if Closes(t) then ScanOne(t) else ScanOne(t) + ScanBlock(t[|ScanOne(t)|..])
  {
    hide ScanOne, Closes;
  }

  /** Blanks the comment that the slash before `i` starts. The result is where scanning goes on:
      at the line break that ends a line comment, at the closing slash of a block comment (by then a space),
      past the end when the input ends inside one, or at `i` when no comment starts. */
  method ConsumeComment(s: array<byte>, i: nat) returns (k: nat)
    requires 1 <= i <= s.Length && s[i - 1] == SLASH
    modifies s
    ensures var t, out := old(s[i - 1..]), Comment(old(s[i - 1..]));
            && s[..] == old(s[..i - 1]) + out + old(s[i - 1 + |out|..])
            && if IsBlock(t) then
                 (k == i - 2 + |out| && k < s.Length && s[k] == SPACE) || (k >= s.Length == i - 1 + |out|)
               else k == i - 1 + |out|
  {
    k := i;
    ghost var t := s[i - 1..];
    CommentCases(t);
    hide Comment, LineLen, ScanBlock;
    Rejoin(s[..], i - 1, 1);
    assert i < s.Length ==> t[1] == s[i] && t[2..] == s[i + 1..];
    if k < s.Length && s[k] == SLASH {
      k := BlankLine(s, i);
    }
    if k < s.Length && s[k] == STAR {
      k := BlankBlock(s, i);
    }
  }

  lemma CommentCases(t: Bytes)
    requires t != []
    ensures IsLine(t) ==> Comment(t) == Spaces(2 + LineLen(t[2..]))
    ensures IsBlock(t) ==> Comment(t) == [SPACE, SPACE] + ScanBlock(t[2..])
    ensures !IsLine(t) && !IsBlock(t) ==> Comment(t) == t[..1]
  {
    hide LineLen, ScanBlock;
  }

  method SkipString(s: array<byte>, i: nat) returns (k: nat)
    requires i < s.Length
    ensures var n := i + 1 + CharsLen(s[i + 1..]); k == n || (k == s.Length + 1 && n == s.Length)
  {
    k := i + 1;
    ghost var n := i + 1 + CharsLen(s[i + 1..]);
    while k < s.Length
      invariant i < k <= s.Length + 1
      invariant n == if k <= s.Length then k + CharsLen(s[k..]) else s.Length
    {
      assert s[k..][1..] == s[k + 1..];
      assert k + 2 <= s.Length ==> s[k..][2..] == s[k + 2..];
      if s[k] == QUOTE {
        k := k + 1;
        break;
      } else if s[k] == BACKSLASH {
        k := k + 1;
      }
      k := k + 1;
    }
  }

  lemma Shift(s: Bytes, n: nat, m: nat)
    requires n + m <= |s|
    ensures s[n..][m..] == s[n + m..]
  {
  }

  /** What one turn of the look-ahead passes. */
  function Passed(t: Bytes): (c: Bytes)
    requires t != []
    ensures 1 <= |c| <= |t|
  {
    if t[0] == SLASH then Skip(t) else [t[0]]
  }

  lemma LookUnfold(t: Bytes)
    requires t != [] && !IsCloser(t[0]) && (t[0] == SLASH || IsWS(t[0]))
    ensures Look(t).closes == Look(t[|Passed(t)|..]).closes
    ensures Look(t).out == Passed(t) + Look(t[|Passed(t)|..]).out
  {
    hide Skip;
  }

  /** Consuming a comment at `i` in the look-ahead, seen together with the step that follows it. */
  method ConsumeAhead(s: array<byte>, i: nat) returns (k: nat)
    requires i < s.Length && s[i] == SLASH
    modifies s
    ensures var t := old(s[i..]);
            && s[..] == old(s[..i]) + Passed(t) + t[|Passed(t)|..]
            && (k + 1 == i + |Passed(t)| || (k + 1 >= s.Length == i + |Passed(t)|))
  {
    hide Comment;
    ghost var t := s[i..];
    k := ConsumeComment(s, i + 1);
    assert Comment(t) + t[|Comment(t)|..] == Passed(t) + t[|Passed(t)|..];
  }

  /** One turn of the look-ahead loop on white space or a comment; its step to the next byte comes after. */
  method PassOne(s: array<byte>, i: nat) returns (k: nat)
    requires i < s.Length && (s[i] == SLASH || IsWS(s[i]))
    modifies s
    ensures var t := old(s[i..]);
            && s[..] == old(s[..i]) + Passed(t) + t[|Passed(t)|..]
            && (k + 1 == i + |Passed(t)| || (k + 1 >= s.Length == i + |Passed(t)|))
  {
    hide Skip;
    k := i;
    if s[i] == SLASH {
      k := ConsumeAhead(s, i);
    } else {
      WhiteIsPassed(s[i..]);
      Rejoin(s[..], i, 1);
    }
  }

  /** One turn of the look-ahead, on values. */
  lemma PassTurn(was: Bytes, m: nat, now: Bytes)
    requires m < |was| && !IsCloser(was[m]) && (was[m] == SLASH || IsWS(was[m]))
    requires now == was[..m] + Passed(was[m..]) + was[m..][|Passed(was[m..])|..]
    ensures var n := m + |Passed(was[m..])|;
            && n <= |now| == |was| && now[n..] == was[m..][|Passed(was[m..])|..]
            && was[..m] + Look(was[m..]).out == now[..n] + Look(now[n..]).out
            && Look(was[m..]).closes == Look(now[n..]).closes
  {
    var t := was[m..];
    LookUnfold(t);
    hide Look, Passed;
    Regroup(was[..m], Passed(t), Look(t[|Passed(t)|..]).out);
  }

  /** Passes white space and comments from `n`, blanking the comments, up to a closer or whatever else follows. */
  method PassTrivia(s: array<byte>, n: nat) returns (i: nat, closes: bool)
    requires n <= s.Length
    modifies s
    ensures var t := old(s[n..]);
            && s[..] == old(s[..n]) + Look(t).out + t[|Look(t).out|..]
            && (i == n + |Look(t).out| || (i >= s.Length == n + |Look(t).out|))
            && closes == Look(t).closes
  {
    hide Look, Passed;
    ghost var orig := s[..];
    ghost var look, goal := Look(orig[n..]), orig[..n] + Look(orig[n..]).out;
    ghost var m := n;
    i, closes := n, false;
    while true
      invariant n <= m == if i <= s.Length then i else s.Length
      invariant s[m..] == orig[m..]
      invariant look.closes == Look(s[m..]).closes && goal == s[..m] + Look(s[m..]).out
      invariant !closes
      decreases s.Length + 2 - i
    {
      LookEnds(s[m..]);
      if i >= s.Length {
        break;
      } else if s[i] == RBRACE || s[i] == RBRACKET {
        closes := true;
        break;
      } else if s[i] != SLASH && !IsWS(s[i]) {
        break;
      }
      ghost var was := s[..];
      ghost var c := Passed(was[m..]);
      i := PassOne(s, i);
      PassTurn(was, m, s[..]);
      Shift(orig, m, |c|);
      m := m + |c|;
      i := i + 1;
    }
    PassDone(orig, n, look.out, m, s[..]);
  }

  lemma PassDone(orig: Bytes, n: nat, out: Bytes, m: nat, now: Bytes)
    requires n <= m <= |now| == |orig| && now[m..] == orig[m..] && orig[..n] + out == now[..m] + []
    ensures m == n + |out| && now == orig[..n] + out + orig[n..][|out|..]
  {
    assert now[..m] + [] == now[..m];
    Shift(orig, n, |out|);
    assert now == now[..m] + now[m..];
  }

  /** Looks past the comma at `j` and blanks it if a closer follows. */
  method LookAhead(s: array<byte>, j: nat) returns (i: nat)
    requires j < s.Length && s[j] == COMMA
    modifies s
    ensures var t := old(s[j + 1..]);
            && s[..] == old(s[..j]) + [if Look(t).closes then SPACE else COMMA] + Look(t).out + t[|Look(t).out|..]
            && (i == j + 1 + |Look(t).out| || (i >= s.Length == j + 1 + |Look(t).out|))
  {
    hide Look;
    assert s[..j + 1] == s[..j] + [COMMA];
    var closes;
    i, closes := PassTrivia(s, j + 1);
    if closes {
      s[j] := SPACE;
    }
  }

  lemma WhiteIsPassed(t: Bytes)
    requires t != [] && IsWS(t[0])
    ensures Passed(t) == [t[0]]
  {
  }

  /** Where the look-ahead stops at once. */
  lemma LookEnds(t: Bytes)
    ensures t == [] ==> Look(t) == Ahead(false, [])
    ensures t != [] && IsCloser(t[0]) ==> Look(t) == Ahead(true, [])
    ensures t != [] && !IsCloser(t[0]) && t[0] != SLASH && !IsWS(t[0]) ==> Look(t) == Ahead(false, [])
  {
  }

  /** What one turn of the scan leaves of the bytes it passes. */
  function Turn(t: Bytes): (c: Bytes)
    requires t != []
    ensures 1 <= |c| <= |t|
  {
    if t[0] == QUOTE then t[..1 + CharsLen(t[1..])]
    else if t[0] == SLASH then Comment(t)
    else if t[0] == COMMA then [if Look(t[1..]).closes then SPACE else COMMA] + Look(t[1..]).out
    else [t[0]]
  }

  lemma StripUnfold(t: Bytes)
    requires t != []
    ensures Strip(t) == Turn(t) + Strip(t[|Turn(t)|..])
  {
    hide Look, Comment, CharsLen;
  }

  lemma SpaceFirst(t: Bytes)
    ensures Strip([SPACE] + t) == [SPACE] + Strip(t)
  {
    assert ([SPACE] + t)[1..] == t;
  }

  /** One turn of the scan, on values: from `i` on nothing is scanned yet. */
  lemma ScanOn(was: Bytes, m: nat, now: Bytes, i: nat)
    requires m < |was| && now == was[..m] + Turn(was[m..]) + was[m..][|Turn(was[m..])|..]
    requires var n := m + |Turn(was[m..])|; i == n || (i >= |now| == n) || (i == n - 1 && i < |now| && now[i] == SPACE)
    ensures |now| == |was|
    ensures var k := if i <= |now| then i else |now|; was[..m] + Strip(was[m..]) == now[..k] + Strip(now[k..])
  {
    var t := was[m..];
    var c := Turn(t);
    var n := m + |c|;
    StripUnfold(t);
    hide Strip, Turn;
    Regroup(was[..m], c, Strip(t[|c|..]));
    assert now[..n] == was[..m] + c && now[n..] == t[|c|..];
    if i == n - 1 && i < |now| {
      assert now[i..] == [SPACE] + now[n..] && now[..n] == now[..i] + [SPACE];
      SpaceFirst(now[n..]);
      Regroup(now[..i], [SPACE], Strip(now[n..]));
    }
  }

  method Prep(s: array<byte>)
    modifies s
    ensures s[..] == Strip(old(s[..]))
  {
    hide Strip, Turn;
    ghost var goal, m := Strip(s[..]), 0;
    var i := 0;
    assert s[..0] + Strip(s[0..]) == goal by { assert s[0..] == s[..]; }
    while i < s.Length
      invariant m == if i <= s.Length then i else s.Length
      invariant goal == s[..m] + Strip(s[m..])
      decreases s.Length - i
    {
      ghost var was := s[..];
      i := PrepTurn(s, i);
      ScanOn(was, m, s[..], i);
      m := if i <= s.Length then i else s.Length;
    }
    StripNothing(s[m..]);
    assert goal == s[..m] + [];
  }

  lemma StripNothing(t: Bytes)
    requires t == []
    ensures Strip(t) == []
  {
  }

  /** Where the next turn starts: past what this one leaves, or on the space that closed a block comment. */
  ghost predicate Follows(s: array<byte>, i: nat, n: nat, k: nat)
    reads s
  {
    k > i && (k == n || (k >= s.Length == n) || (k == n - 1 && k < s.Length && s[k] == SPACE))
  }

  lemma BlockIsLong(t: Bytes)
    requires IsBlock(t)
    ensures |Comment(t)| >= 2 && (|t| > 2 ==> |Comment(t)| >= 3)
  {
  }

  method ConsumeTop(s: array<byte>, i: nat) returns (k: nat)
    requires i < s.Length && s[i] == SLASH
    modifies s
    ensures var t := old(s[i..]); s[..] == old(s[..i]) + Comment(t) + t[|Comment(t)|..]
    ensures Follows(s, i, i + |Comment(old(s[i..]))|, k)
  {
    hide Comment;
    if IsBlock(s[i..]) { BlockIsLong(s[i..]); }
    k := ConsumeComment(s, i + 1);
  }

  lemma TurnCases(t: Bytes)
    requires t != []
    ensures t[0] == QUOTE ==> Turn(t) == t[..1 + CharsLen(t[1..])]
    ensures t[0] == SLASH ==> Turn(t) == Comment(t)
    ensures t[0] == COMMA ==> Turn(t) == [if Look(t[1..]).closes then SPACE else COMMA] + Look(t[1..]).out
    ensures t[0] == COMMA ==> t[|Turn(t)|..] == t[1..][|Look(t[1..]).out|..]
    ensures t[0] !in {QUOTE, SLASH, COMMA} ==> Turn(t) == t[..1]
  {
    hide Look, Comment, CharsLen;
  }

  lemma Rejoin(s: Bytes, i: nat, n: nat)
    requires i + n <= |s|
    ensures s == s[..i] + s[i..][..n] + s[i..][n..]
  {
  }

  /** One case of the scan's switch. */
  method PrepTurn(s: array<byte>, i: nat) returns (k: nat)
    requires i < s.Length
    modifies s
    ensures var t := old(s[i..]); s[..] == old(s[..i]) + Turn(t) + t[|Turn(t)|..]
    ensures Follows(s, i, i + |Turn(old(s[i..]))|, k)
  {
    hide Turn, Look, Comment, CharsLen;
    ghost var orig, t := s[..], s[i..];
    assert t == orig[i..] && t[0] == s[i] && t[1..] == s[i + 1..];
    TurnCases(t);
    k := i;
    if s[i] == QUOTE {
      k := SkipString(s, i);
      Rejoin(orig, i, |Turn(t)|);
    } else if s[i] == SLASH {
      k := ConsumeTop(s, i);
    } else if s[i] == COMMA {
      k := LookAhead(s, i);
      Regroup(orig[..i], [if Look(t[1..]).closes then SPACE else COMMA], Look(t[1..]).out);
    } else {
      k := k + 1;
      Rejoin(orig, i, 1);
    }
  }
}
