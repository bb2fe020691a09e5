/** The stripper against a two-pass specification: blank the comments, then blank the trailing commas. */
module Json5TwoPass {
  import opened Common
  import opened ByteStrings
  import opened Json5

  /** Bytes of a block comment's body through the first star-slash, or all of them. */
  function BlockLen(t: Bytes): (n: nat)
    ensures n <= |t|
  {
    if t == [] then 0 else if Closes(t) then 2 else 1 + BlockLen(t[1..])
  }

  predicate StartsComment(t: Bytes) {
    IsLine(t) || IsBlock(t)
  }

  function CommentLen(t: Bytes): (n: nat)
    requires StartsComment(t)
    ensures 2 <= n <= |t|
  {
    if IsLine(t) then 2 + LineLen(t[2..]) else 2 + BlockLen(t[2..])
  }

  function StringLen(t: Bytes): (n: nat)
    requires t != []
    ensures 1 <= n <= |t|
  {
    1 + CharsLen(t[1..])
  }

  /** Blanks every comment that starts outside a string. */
  function Uncomment(t: Bytes): (out: Bytes)
    ensures |out| == |t|
    decreases |t|
  {
    if t == [] then []
    else if t[0] == QUOTE then t[..StringLen(t)] + Uncomment(t[StringLen(t)..])
    else if StartsComment(t) then Spaces(CommentLen(t)) + Uncomment(t[CommentLen(t)..])
    else [t[0]] + Uncomment(t[1..])
  }

  /** Only white space, then a closing brace or bracket. */
  predicate CloserAhead(t: Bytes) {
    t != [] && (IsCloser(t[0]) || (IsWS(t[0]) && CloserAhead(t[1..])))
  }

  /** Blanks every comma outside a string that has a closer ahead. */
  function Untrail(t: Bytes): (out: Bytes)
    ensures |out| == |t|
    decreases |t|
  {
    if t == [] then []
    else if t[0] == QUOTE then t[..StringLen(t)] + Untrail(t[StringLen(t)..])
    else if t[0] == COMMA && CloserAhead(t[1..]) then [SPACE] + Untrail(t[1..])
    else [t[0]] + Untrail(t[1..])
  }

  function TwoPass(t: Bytes): Bytes {
    Untrail(Uncomment(t))
  }

  // ---------------------------------------------------------------------------
  // Conditions on the input
  // ---------------------------------------------------------------------------

  /** Every star in the comment body is followed by a space, by the closing slash, or by nothing. */
  predicate BodySpaced(t: Bytes) {
    t == [] || Closes(t) || ((t[0] == STAR && |t| > 1 ==> t[1] == SPACE) && BodySpaced(t[1..]))
  }

  predicate StarsSpaced(t: Bytes)
    decreases |t|
  {
    if t == [] then true
    else if t[0] == QUOTE then StarsSpaced(t[StringLen(t)..])
    else if StartsComment(t) then (IsBlock(t) ==> BodySpaced(t[2..])) && StarsSpaced(t[CommentLen(t)..])
    else StarsSpaced(t[1..])
  }

  /** Across white space and comments, no slash that starts no comment. */
  predicate NoStrayAhead(t: Bytes)
    decreases |t|
  {
    if t == [] then true
    else if t[0] == SLASH then StartsComment(t) && NoStrayAhead(t[CommentLen(t)..])
    else if IsWS(t[0]) then NoStrayAhead(t[1..])
    else true
  }

  /** As above, but no slash that starts no comment stands before a quote. */
  predicate NoHiddenQuoteAhead(t: Bytes)
    decreases |t|
  {
    if t == [] then true
    else if StartsComment(t) then NoHiddenQuoteAhead(t[CommentLen(t)..])
    else if t[0] == SLASH && |t| > 1 then t[1] != QUOTE && NoHiddenQuoteAhead(t[2..])
    else if IsWS(t[0]) then NoHiddenQuoteAhead(t[1..])
    else true
  }

  /** No comma outside strings and comments is followed, across white space, comments and slashes
      that start none, each with the byte after it, by such a slash and a quote. */
  predicate NoHiddenQuote(t: Bytes)
    decreases |t|
  {
    if t == [] then true
    else if t[0] == QUOTE then NoHiddenQuote(t[StringLen(t)..])
    else if StartsComment(t) then NoHiddenQuote(t[CommentLen(t)..])
    else (t[0] == COMMA ==> NoHiddenQuoteAhead(t[1..])) && NoHiddenQuote(t[1..])
  }

  /** A closer follows white space, comments and slashes that start none, each of these with the byte after it. */
  predicate Reaches(t: Bytes)
    decreases |t|
  {
    if t == [] then false
    else if IsCloser(t[0]) then true
    else if StartsComment(t) then Reaches(t[CommentLen(t)..])
    else if t[0] == SLASH then |t| > 1 && Reaches(t[2..])
    else IsWS(t[0]) && Reaches(t[1..])
  }

  /** No slash that starts no comment stands between a comma outside strings and comments and a closer. */
  predicate NoSlashBeforeCloser(t: Bytes)
    decreases |t|
  {
    if t == [] then true
    else if t[0] == QUOTE then NoSlashBeforeCloser(t[StringLen(t)..])
    else if StartsComment(t) then NoSlashBeforeCloser(t[CommentLen(t)..])
    else (t[0] == COMMA ==> NoStrayAhead(t[1..]) || !Reaches(t[1..])) && NoSlashBeforeCloser(t[1..])
  }

  /** No comma outside strings and comments is followed, across white space and comments, by a slash that starts
      none. */
  predicate NoStray(t: Bytes)
    decreases |t|
  {
    if t == [] then true
    else if t[0] == QUOTE then NoStray(t[StringLen(t)..])
    else if StartsComment(t) then NoStray(t[CommentLen(t)..])
    else (t[0] == COMMA ==> NoStrayAhead(t[1..])) && NoStray(t[1..])
  }

  // ---------------------------------------------------------------------------
  // Comment bodies
  // ---------------------------------------------------------------------------

  lemma {:induction false} SpacedBodyIsBlanked(t: Bytes)
    requires BodySpaced(t)
    ensures ScanBlock(t) == Spaces(BlockLen(t))
    decreases |t|
  {
    if t != [] && !Closes(t) {
      if t[0] == STAR && |t| > 1 {
        assert t[1..][1..] == t[2..] && t[1..][0] == SPACE;
        SpacedBodyIsBlanked(t[2..]);
        assert BlockLen(t) == 2 + BlockLen(t[2..]);
      } else {
        SpacedBodyIsBlanked(t[1..]);
      }
    }
  }

  /** Otherwise some byte of the body survives. */
  lemma {:induction false} UnspacedBodySurvives(t: Bytes) returns (k: nat)
    requires !BodySpaced(t)
    ensures k < |ScanBlock(t)| && k < BlockLen(t) && ScanBlock(t)[k] != SPACE
    decreases |t|
  {
    if t[0] == STAR && |t| > 1 {
      if t[1] == SPACE {
        assert t[1..][1..] == t[2..] && t[1..][0] == SPACE;
        k := UnspacedBodySurvives(t[2..]);
        assert BlockLen(t) == 2 + BlockLen(t[2..]);
        k := k + 2;
      } else {
        k := 1;
      }
    } else {
      k := UnspacedBodySurvives(t[1..]);
      k := k + 1;
    }
  }

  // ---------------------------------------------------------------------------
  // The second pass over pieces
  // ---------------------------------------------------------------------------

  lemma {:induction false} CharsLenStable(x: Bytes, rest: Bytes)
    requires |rest| == |x| - CharsLen(x)
    ensures CharsLen(x[..CharsLen(x)] + rest) == CharsLen(x)
    decreases |x|
  {
    var n := CharsLen(x);
    var y := x[..n] + rest;
    if n == |x| {
      assert y == x;
    } else if x[0] == BACKSLASH {
      CharsLenStable(x[2..], rest);
      assert y[2..] == x[2..][..n - 2] + rest;
    } else if x[0] != QUOTE {
      CharsLenStable(x[1..], rest);
      assert y[1..] == x[1..][..n - 1] + rest;
    }
  }

  lemma StringLenStable(t: Bytes, rest: Bytes)
    requires t != [] && |rest| == |t| - StringLen(t)
    ensures StringLen(t[..StringLen(t)] + rest) == StringLen(t)
  {
    hide CharsLen;
    var x, n := t[1..], StringLen(t);
    CharsLenStable(x, rest);
    assert (t[..n] + rest)[1..] == x[..n - 1] + rest;
  }

  lemma UntrailQuote(y: Bytes, n: nat)
    requires y != [] && y[0] == QUOTE && n == StringLen(y)
    ensures Untrail(y) == y[..n] + Untrail(y[n..])
  {
    hide StringLen, CloserAhead;
  }

  lemma UntrailString(t: Bytes, rest: Bytes)
    requires t != [] && t[0] == QUOTE && |rest| == |t| - StringLen(t)
    ensures Untrail(t[..StringLen(t)] + rest) == t[..StringLen(t)] + Untrail(rest)
  {
    var n := StringLen(t);
    var y := t[..n] + rest;
    StringLenStable(t, rest);
    hide StringLen, Untrail;
    UntrailQuote(y, n);
    assert y[..n] == t[..n] && y[n..] == rest;
  }

  lemma {:induction false} UntrailSpaces(n: nat, rest: Bytes)
    ensures Untrail(Spaces(n) + rest) == Spaces(n) + Untrail(rest)
    ensures CloserAhead(Spaces(n) + rest) == CloserAhead(rest)
    decreases n
  {
    if n == 0 {
      assert Spaces(0) + rest == rest;
    } else {
      UntrailSpaces(n - 1, rest);
      assert Spaces(n) + rest == [SPACE] + (Spaces(n - 1) + rest);
      assert (Spaces(n) + rest)[1..] == Spaces(n - 1) + rest;
      assert Spaces(n) + Untrail(rest) == [SPACE] + (Spaces(n - 1) + Untrail(rest));
    }
  }

  lemma CommentIsSpaces(t: Bytes)
    requires StartsComment(t)
    ensures TwoPass(t) == Spaces(CommentLen(t)) + TwoPass(t[CommentLen(t)..])
    ensures CloserAhead(Uncomment(t)) == CloserAhead(Uncomment(t[CommentLen(t)..]))
  {
    UntrailSpaces(CommentLen(t), Uncomment(t[CommentLen(t)..]));
  }

  lemma PlainByte(t: Bytes)
    requires t != [] && t[0] != QUOTE && !StartsComment(t)
    ensures TwoPass(t) == [if t[0] == COMMA && CloserAhead(Uncomment(t[1..])) then SPACE else t[0]] + TwoPass(t[1..])
    ensures CloserAhead(Uncomment(t)) == (IsCloser(t[0]) || (IsWS(t[0]) && CloserAhead(Uncomment(t[1..]))))
  {
    assert Uncomment(t)[1..] == Uncomment(t[1..]);
  }

  lemma SameTail(c: Bytes, a: Bytes, b: Bytes)
    ensures c + a == c + b <==> a == b
  {
    if c + a == c + b {
      assert (c + a)[|c|..] == a && (c + b)[|c|..] == b;
    }
  }

  lemma SameHeadAndTail(x: byte, a: Bytes, y: byte, b: Bytes)
    ensures [x] + a == [y] + b <==> x == y && a == b
  {
    if [x] + a == [y] + b {
      assert ([x] + a)[0] == x && ([y] + b)[0] == y;
      assert ([x] + a)[1..] == a && ([y] + b)[1..] == b;
    }
  }

  // ---------------------------------------------------------------------------
  // The one-pass scan
  // ---------------------------------------------------------------------------

  /** What the scan makes of `t` when it enters it looking past a comma. */
  function LookStrip(t: Bytes): Bytes {
    Look(t).out + Strip(t[|Look(t).out|..])
  }

  lemma BlankedComment(t: Bytes)
    requires StartsComment(t) && (IsBlock(t) ==> BodySpaced(t[2..]))
    ensures Comment(t) == Spaces(CommentLen(t))
  {
    if IsBlock(t) { SpacedBodyIsBlanked(t[2..]); }
  }

  /** A comment whose body survives makes every continuation differ from the specification. */
  lemma SurvivingBody(t: Bytes, rest: Bytes)
    requires IsBlock(t) && !BodySpaced(t[2..])
    ensures Comment(t) + rest != TwoPass(t)
  {
    CommentIsSpaces(t);
    var k := UnspacedBodySurvives(t[2..]);
    assert (Comment(t) + rest)[2 + k] != SPACE;
    assert TwoPass(t)[2 + k] == SPACE;
  }

  lemma {:induction false} AgreeIff(t: Bytes)
    requires NoHiddenQuote(t)
    ensures Strip(t) == TwoPass(t) <==> StarsSpaced(t) && NoSlashBeforeCloser(t)
    decreases |t|, 0
  {
    if t == [] {
    } else if t[0] == QUOTE {
      var n := StringLen(t);
      AgreeIff(t[n..]);
      UntrailString(t, Uncomment(t[n..]));
      SameTail(t[..n], Strip(t[n..]), TwoPass(t[n..]));
    } else if StartsComment(t) {
      if IsBlock(t) && !BodySpaced(t[2..]) {
        SurvivingBody(t, Strip(t[|Comment(t)|..]));
      } else {
        BlankedComment(t);
        CommentIsSpaces(t);
        AgreeIff(t[CommentLen(t)..]);
        SameTail(Comment(t), Strip(t[CommentLen(t)..]), TwoPass(t[CommentLen(t)..]));
      }
    } else {
      PlainByte(t);
      if t[0] == COMMA {
        AgreeAheadIff(t[1..]);
        CommaCase(t);
        SameHeadAndTail(if Look(t[1..]).closes then SPACE else COMMA, LookStrip(t[1..]),
                        if CloserAhead(Uncomment(t[1..])) then SPACE else COMMA, TwoPass(t[1..]));
      } else {
        AgreeIff(t[1..]);
        SameTail([t[0]], Strip(t[1..]), TwoPass(t[1..]));
      }
    }
  }

  lemma CommaCase(t: Bytes)
    requires t != [] && t[0] == COMMA
    ensures Strip(t) == [if Look(t[1..]).closes then SPACE else COMMA] + LookStrip(t[1..])
  {
    hide Look, Comment, CharsLen;
    var a := Look(t[1..]);
    Regroup([if a.closes then SPACE else COMMA], a.out, Strip(t[1 + |a.out|..]));
    Shift(t, 1, |a.out|);
  }

  /** Past a comma the scan must agree on the rest and on whether the comma goes. */
  ghost predicate AgreesAhead(t: Bytes) {
    LookStrip(t) == TwoPass(t) && Look(t).closes == CloserAhead(Uncomment(t))
  }

  ghost predicate FitAhead(t: Bytes) {
    StarsSpaced(t) && NoSlashBeforeCloser(t) && (NoStrayAhead(t) || !Reaches(t))
  }

  lemma {:induction false} AgreeAheadIff(t: Bytes)
    requires NoHiddenQuoteAhead(t) && NoHiddenQuote(t)
    ensures AgreesAhead(t) <==> FitAhead(t)
    decreases |t|, 1
  {
    if t == [] {
    } else if StartsComment(t) {
      AgreeAheadComment(t);
    } else if t[0] == SLASH {
      AgreeAheadStray(t);
    } else if IsWS(t[0]) {
      PlainByte(t);
      AgreeAheadIff(t[1..]);
      PassedTurn(t);
      WhiteIsPassed(t);
      hide Look, LookStrip, Strip, TwoPass, Passed, CloserAhead, Uncomment;
      SameTail([t[0]], LookStrip(t[1..]), TwoPass(t[1..]));
    } else {
      AgreeIff(t);
      if t[0] != QUOTE { PlainByte(t); }
    }
  }

  lemma PassedTurn(t: Bytes)
    requires t != [] && !IsCloser(t[0]) && (t[0] == SLASH || IsWS(t[0]))
    ensures LookStrip(t) == Passed(t) + LookStrip(t[|Passed(t)|..])
    ensures Look(t).closes == Look(t[|Passed(t)|..]).closes
  {
    hide Look, Passed, Strip, IsCloser, IsWS;
    LookUnfold(t);
    JoinPassed(t, Passed(t), Look(t[|Passed(t)|..]).out);
  }

  lemma JoinPassed(t: Bytes, p: Bytes, more: Bytes)
    requires |p| + |more| <= |t|
    ensures (p + more) + Strip(t[|p + more|..]) == p + (more + Strip(t[|p|..][|more|..]))
  {
    hide Strip;
    Shift(t, |p|, |more|);
    Regroup(p, more, Strip(t[|p|..][|more|..]));
  }

  lemma {:induction false} AgreeAheadComment(t: Bytes)
    requires StartsComment(t) && NoHiddenQuoteAhead(t) && NoHiddenQuote(t)
    ensures AgreesAhead(t) <==> FitAhead(t)
    decreases |t|, 0
  {
    hide Look, LookStrip, Strip, TwoPass, Passed, Comment, FitAhead, NoHiddenQuote, NoHiddenQuoteAhead, CloserAhead;
    hide Uncomment;
    PassedTurn(t);
    CommentIsSpaces(t);
    CommentFit(t);
    if IsBlock(t) && !BodySpaced(t[2..]) {
      SurvivingBody(t, LookStrip(t[|Passed(t)|..]));
    } else {
      var n := CommentLen(t);
      var rest := t[n..];
      if IsBlock(t) || n == |t| {
        AgreeAheadIff(rest);
        SameTail(Spaces(n), LookStrip(rest), TwoPass(rest));
      } else {
        LineBreakPassed(t);
        AgreeAheadIff(rest[1..]);
        Regroup(Spaces(n), [rest[0]], TwoPass(rest[1..]));
        SameTail(Passed(t), LookStrip(rest[1..]), TwoPass(rest[1..]));
      }
    }
  }

  lemma CommentFit(t: Bytes)
    requires StartsComment(t) && NoHiddenQuoteAhead(t) && NoHiddenQuote(t)
    ensures var n, rest, passed := CommentLen(t), t[CommentLen(t)..], Passed(t);
            if IsBlock(t) && !BodySpaced(t[2..]) then
              !FitAhead(t) && (forall more :: passed + more == Comment(t) + more)
            else
              && Comment(t) == Spaces(n) && (FitAhead(t) <==> FitAhead(rest))
              && NoHiddenQuoteAhead(rest) && NoHiddenQuote(rest)
              && (IsBlock(t) || n == |t| ==> passed == Spaces(n))
  {
    if !(IsBlock(t) && !BodySpaced(t[2..])) { BlankedComment(t); }
  }

  /** The line break that ends a line comment is stepped over unseen. */
  lemma LineBreakPassed(t: Bytes)
    requires IsLine(t) && CommentLen(t) < |t| && Comment(t) == Spaces(CommentLen(t))
    ensures var n, rest := CommentLen(t), t[CommentLen(t)..];
            && rest[1..] == t[n + 1..] && Passed(t) == Spaces(n) + [rest[0]]
            && TwoPass(rest) == [rest[0]] + TwoPass(rest[1..])
            && CloserAhead(Uncomment(rest)) == CloserAhead(Uncomment(rest[1..]))
            && (FitAhead(rest) <==> FitAhead(rest[1..]))
            && (NoHiddenQuoteAhead(rest) ==> NoHiddenQuoteAhead(rest[1..]))
            && (NoHiddenQuote(rest) ==> NoHiddenQuote(rest[1..]))
  {
    var rest := t[CommentLen(t)..];
    assert IsNL(rest[0]);
    PlainByte(rest);
  }

  lemma StrayPassed(t: Bytes)
    requires |t| > 1 && t[0] == SLASH && !StartsComment(t) && t[1] != QUOTE
    ensures Passed(t) == [SLASH] + [t[1]]
    ensures TwoPass(t) == [SLASH]
            + ([if t[1] == COMMA && CloserAhead(Uncomment(t[2..])) then SPACE else t[1]] + TwoPass(t[2..]))
    ensures !CloserAhead(Uncomment(t))
  {
    hide TwoPass, CloserAhead, Uncomment, Passed, StartsComment;
    StraySkip(t);
    PlainByte(t);
    PlainByte(t[1..]);
  }

  lemma StraySkip(t: Bytes)
    requires |t| > 1 && t[0] == SLASH && !StartsComment(t)
    ensures Skip(t) == Passed(t) == [t[0]] + [t[1]]
    ensures t[1..][0] == t[1] && t[1..][1..] == t[2..] && !StartsComment(t[1..])
  {
    assert Comment(t) == [t[0]];
  }

  lemma PlainFit(t: Bytes)
    requires t != [] && t[0] != QUOTE && !StartsComment(t)
    ensures StarsSpaced(t) == StarsSpaced(t[1..])
    ensures NoHiddenQuote(t) <==> (t[0] == COMMA ==> NoHiddenQuoteAhead(t[1..])) && NoHiddenQuote(t[1..])
    ensures NoSlashBeforeCloser(t) <==>
            (t[0] == COMMA ==> NoStrayAhead(t[1..]) || !Reaches(t[1..])) && NoSlashBeforeCloser(t[1..])
  {
    hide NoHiddenQuoteAhead, NoStrayAhead, Reaches;
  }

  lemma StrayFit(t: Bytes)
    requires |t| > 1 && t[0] == SLASH && !StartsComment(t) && t[1] != QUOTE
    ensures !NoStrayAhead(t) && Reaches(t) == Reaches(t[2..])
    ensures StarsSpaced(t) == StarsSpaced(t[2..]) && (NoHiddenQuote(t) ==> NoHiddenQuote(t[2..]))
    ensures NoSlashBeforeCloser(t) <==>
            (t[1] == COMMA ==> NoStrayAhead(t[2..]) || !Reaches(t[2..])) && NoSlashBeforeCloser(t[2..])
  {
    hide StarsSpaced, NoHiddenQuote, NoSlashBeforeCloser;
    assert t[1..][1..] == t[2..] && t[1..][0] == t[1] && !StartsComment(t[1..]);
    PlainFit(t);
    PlainFit(t[1..]);
  }

  /** A slash that starts no comment and the byte it hides are passed; the two scans go on in step. */
  lemma {:induction false} AgreeAheadStray(t: Bytes)
    requires t != [] && t[0] == SLASH && !StartsComment(t) && NoHiddenQuoteAhead(t) && NoHiddenQuote(t)
    ensures AgreesAhead(t) <==> FitAhead(t)
    decreases |t|, 0
  {
    PassedTurn(t);
    if |t| == 1 {
      assert t == [SLASH] && t[1..] == [];
      PlainByte(t);
      PlainFit(t);
      assert FitAhead(t);
      assert LookStrip(t) == [SLASH] + LookStrip([]);
      assert AgreesAhead(t);
    } else {
      var rest := t[2..];
      StrayPassed(t);
      StrayFit(t);
      AgreeAheadIff(rest);
      hide Look, LookStrip, Strip, TwoPass, Passed, Comment, NoHiddenQuote, CloserAhead, Uncomment;
      if StarsSpaced(rest) { ReachesIs(rest); }
      if LookStrip(rest) == TwoPass(rest) && CloserAhead(Uncomment(rest)) { CloserIsSeen(rest); }
      var c := if t[1] == COMMA && CloserAhead(Uncomment(rest)) then SPACE else t[1];
      Regroup([SLASH], [t[1]], LookStrip(rest));
      SameTail([SLASH], [t[1]] + LookStrip(rest), [c] + TwoPass(rest));
      SameHeadAndTail(t[1], LookStrip(rest), c, TwoPass(rest));
    }
  }

  /** With spaced stars the look-ahead finds a closer exactly when one is reached. */
  lemma {:induction false} ReachesIs(t: Bytes)
    requires StarsSpaced(t) && NoHiddenQuoteAhead(t)
    ensures Look(t).closes == Reaches(t)
    decreases |t|
  {
    if t == [] || IsCloser(t[0]) || (t[0] != SLASH && !IsWS(t[0])) {
      LookEnds(t);
    } else {
      PassedTurn(t);
      hide Look, LookStrip, Strip, Passed;
      if StartsComment(t) {
        ReachesPast(t);
        hide Reaches, StarsSpaced, NoHiddenQuoteAhead;
        ReachesIs(t[|Passed(t)|..]);
      } else if t[0] == SLASH {
        if |t| > 1 {
          StrayFit(t);
          StrayPassed(t);
          ReachesIs(t[2..]);
        } else {
          LookEnds(t[|Passed(t)|..]);
        }
      } else {
        WhiteIsPassed(t);
        ReachesIs(t[1..]);
      }
    }
  }

  lemma ReachesPast(t: Bytes)
    requires StartsComment(t) && StarsSpaced(t) && NoHiddenQuoteAhead(t)
    ensures var rest := t[|Passed(t)|..]; Reaches(t) == Reaches(rest) && StarsSpaced(rest) && NoHiddenQuoteAhead(rest)
  {
    BlankedComment(t);
    if IsLine(t) && CommentLen(t) < |t| { LineBreakPassed(t); }
    hide ScanBlock, BodySpaced, LineLen, BlockLen;
  }

  lemma AgreementPastComment(t: Bytes)
    requires StartsComment(t) && LookStrip(t) == TwoPass(t) && CloserAhead(Uncomment(t))
    ensures |Passed(t)| > 0
    ensures var rest := t[|Passed(t)|..];
            LookStrip(rest) == TwoPass(rest) && CloserAhead(Uncomment(rest)) && (Look(rest).closes ==> Look(t).closes)
  {
    hide ScanBlock, LineLen, BlockLen, Strip;
    PassedTurn(t);
    CommentIsSpaces(t);
    if IsBlock(t) && !BodySpaced(t[2..]) {
      SurvivingBody(t, LookStrip(t[|Passed(t)|..]));
    } else {
      BlankedComment(t);
      var n := CommentLen(t);
      var rest := t[n..];
      if IsBlock(t) || n == |t| {
        SameTail(Spaces(n), LookStrip(rest), TwoPass(rest));
      } else {
        LineBreakPassed(t);
        Regroup(Spaces(n), [rest[0]], TwoPass(rest[1..]));
        SameTail(Passed(t), LookStrip(rest[1..]), TwoPass(rest[1..]));
      }
    }
  }

  /** A scan that agrees with the specification past a comma does not miss its closer. */
  lemma {:induction false} CloserIsSeen(t: Bytes)
    requires LookStrip(t) == TwoPass(t) && CloserAhead(Uncomment(t))
    ensures Look(t).closes
    decreases |t|
  {
    if IsCloser(t[0]) {
    } else if StartsComment(t) {
      AgreementPastComment(t);
      CloserIsSeen(t[|Passed(t)|..]);
    } else {
      PlainByte(t);
      PassedTurn(t);
      SameTail([t[0]], LookStrip(t[1..]), TwoPass(t[1..]));
      CloserIsSeen(t[1..]);
    }
  }

  // ---------------------------------------------------------------------------
  // The main result, and inputs that show each condition is needed
  // ---------------------------------------------------------------------------

  /** One pass equals two exactly when every star in a block comment is followed by a space or closes it,
      and no comma is kept from a closer by a slash that starts no comment. */
  lemma OnePassIsTwoPassIff(t: Bytes)
    requires NoHiddenQuote(t)
    ensures Strip(t) == Untrail(Uncomment(t)) <==> StarsSpaced(t) && NoSlashBeforeCloser(t)
  {
    AgreeIff(t);
  }

  /** In particular when every slash outside strings that follows a comma across trivia starts a comment. */
  lemma {:induction false} NoStrayIsFit(t: Bytes)
    requires NoStray(t)
    ensures NoHiddenQuote(t) && NoSlashBeforeCloser(t)
    ensures NoStrayAhead(t) ==> NoHiddenQuoteAhead(t)
    decreases |t|
  {
    if t == [] {
    } else if t[0] == QUOTE {
      NoStrayIsFit(t[StringLen(t)..]);
    } else if StartsComment(t) {
      NoStrayIsFit(t[CommentLen(t)..]);
    } else {
      NoStrayIsFit(t[1..]);
    }
  }

  predicate StarFree(t: Bytes) {
    t == [] || Closes(t) || (t[0] != STAR && StarFree(t[1..]))
  }

  lemma {:induction false} StarFreeIsSpaced(t: Bytes)
    requires StarFree(t)
    ensures BodySpaced(t)
  {
    if t != [] && !Closes(t) { StarFreeIsSpaced(t[1..]); }
  }

  /** A block comment holding one unspaced star keeps the byte after it. */
  lemma StarBodySurvives(a: byte)
    requires a != SLASH && a != SPACE && a != STAR
    ensures Strip([SLASH, STAR, STAR, a, STAR, SLASH]) == [SPACE, SPACE, SPACE, a, SPACE, SPACE]
    ensures TwoPass([SLASH, STAR, STAR, a, STAR, SLASH]) == Spaces(6)
  {
    var t := [SLASH, STAR, STAR, a, STAR, SLASH];
    assert t[2..] == [STAR, a, STAR, SLASH] && t[2..][2..] == [STAR, SLASH] && t[2..][1..] == [a, STAR, SLASH];
    assert t[2..][1..][1..] == [STAR, SLASH];
    assert ScanBlock([STAR, SLASH]) == [SPACE, SPACE];
    assert ScanBlock(t[2..]) == [SPACE, a, SPACE, SPACE];
    assert Comment(t) == [SPACE, SPACE, SPACE, a, SPACE, SPACE] && t[6..] == [];
    assert BlockLen([STAR, SLASH]) == 2 && BlockLen(t[2..]) == 4;
    assert Uncomment(t) == Spaces(6) + Uncomment([]);
    UntrailSpaces(6, []);
    assert Spaces(6) + [] == Spaces(6);
  }

  /** A slash that starts no comment, met past a comma, hides the byte after it. A hidden quote turns strings
      inside out: in `,/"//"` the string's own slashes are blanked as a comment. */
  lemma HiddenQuoteBlanksAString()
    ensures Strip([COMMA, SLASH, QUOTE, SLASH, SLASH, QUOTE]) == [COMMA, SLASH, QUOTE, SPACE, SPACE, SPACE]
    ensures TwoPass([COMMA, SLASH, QUOTE, SLASH, SLASH, QUOTE]) == [COMMA, SLASH, QUOTE, SLASH, SLASH, QUOTE]
  {
    HiddenQuoteScan();
    HiddenQuoteSpec();
  }

  lemma HiddenQuoteScan()
    ensures Strip([COMMA, SLASH, QUOTE, SLASH, SLASH, QUOTE]) == [COMMA, SLASH, QUOTE, SPACE, SPACE, SPACE]
  {
    var line := [SLASH, SLASH, QUOTE];
    var t := [COMMA, SLASH, QUOTE] + line;
    assert t == [COMMA, SLASH, QUOTE, SLASH, SLASH, QUOTE];
    assert line[2..] == [QUOTE] && LineLen([QUOTE]) == 1 by { assert [QUOTE][1..] == []; }
    assert Comment(line) == Spaces(3) && line[3..] == [];
    assert Look(line) == Ahead(false, Spaces(3) + []);
    StraySkip(t[1..]);
    assert t[1..][2..] == line;
    LookUnfold(t[1..]);
    CommaCase(t);
    assert t[1..][|Look(t[1..]).out|..] == [];
  }

  lemma HiddenQuoteSpec()
    ensures TwoPass([COMMA, SLASH, QUOTE, SLASH, SLASH, QUOTE]) == [COMMA, SLASH, QUOTE, SLASH, SLASH, QUOTE]
  {
    var t := [COMMA, SLASH, QUOTE, SLASH, SLASH, QUOTE];
    var text := [QUOTE, SLASH, SLASH, QUOTE];
    assert t[1..][1..] == text && text[1..][1..] == [SLASH, QUOTE] && text[1..][1..][1..] == [QUOTE];
    assert CharsLen([QUOTE]) == 1 && CharsLen([SLASH, QUOTE]) == 2 && StringLen(text) == 4;
    assert text[4..] == [] && text[..4] == text;
    PlainByte(t);
    PlainByte(t[1..]);
    UntrailQuote(text, 4);
    assert Uncomment(text) == text + [] == text;
  }
}
