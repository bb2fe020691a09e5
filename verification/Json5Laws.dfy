/** Laws of the stripper: it only blanks bytes, and exactly when it is idempotent. */
module Json5Laws {
  import opened ByteStrings
  import opened Json5
  import opened Json5TwoPass

  // ---------------------------------------------------------------------------
  // On every input
  // ---------------------------------------------------------------------------

  /** `out` is `t` with some bytes made spaces. */
  ghost predicate Blanked(out: Bytes, t: Bytes) {
    |out| <= |t| && forall k :: 0 <= k < |out| ==> out[k] == t[k] || out[k] == SPACE
  }

  lemma BlankedJoin(a: Bytes, b: Bytes, t: Bytes)
    requires Blanked(a, t) && Blanked(b, t[|a|..])
    ensures Blanked(a + b, t)
  {
    forall k | |a| <= k < |a + b|
      ensures (a + b)[k] == t[k] || (a + b)[k] == SPACE
    {
      assert t[|a|..][k - |a|] == t[k];
    }
  }

  lemma {:induction false} ScanOnlyBlanks(t: Bytes)
    ensures Blanked(ScanBlock(t), t)
  {
    if t != [] && !Closes(t) {
      ScanOnlyBlanks(t[|ScanOne(t)|..]);
      BlankedJoin(ScanOne(t), ScanBlock(t[|ScanOne(t)|..]), t);
    }
  }

  lemma CommentOnlyBlanks(t: Bytes)
    requires t != []
    ensures Blanked(Comment(t), t)
  {
    if IsBlock(t) {
      ScanOnlyBlanks(t[2..]);
      BlankedJoin([SPACE, SPACE], ScanBlock(t[2..]), t);
    }
  }

  lemma {:induction false} LookOnlyBlanks(t: Bytes)
    ensures Blanked(Look(t).out, t)
    decreases |t|
  {
    if t != [] && !IsCloser(t[0]) && (t[0] == SLASH || IsWS(t[0])) {
      CommentOnlyBlanks(t);
      LookUnfold(t);
      LookOnlyBlanks(t[|Passed(t)|..]);
      BlankedJoin(Passed(t), Look(t[|Passed(t)|..]).out, t);
    }
  }

  /** Whatever the input, malformed included, bytes only ever turn into spaces. */
  lemma {:induction false} StripOnlyBlanks(t: Bytes)
    ensures Blanked(Strip(t), t)
    decreases |t|
  {
    if t != [] {
      StripUnfold(t);
      CommentOnlyBlanks(t);
      LookOnlyBlanks(t[1..]);
      assert Blanked([if Look(t[1..]).closes then SPACE else t[0]], t);
      BlankedJoin([if Look(t[1..]).closes then SPACE else t[0]], Look(t[1..]).out, t);
      StripOnlyBlanks(t[|Turn(t)|..]);
      BlankedJoin(Turn(t), Strip(t[|Turn(t)|..]), t);
    }
  }

  // ---------------------------------------------------------------------------
  // Running it twice
  // ---------------------------------------------------------------------------

  /** White space, then no slash. */
  predicate NoSlashAhead(t: Bytes) {
    t == [] || (t[0] != SLASH && (IsWS(t[0]) ==> NoSlashAhead(t[1..])))
  }

  /** No comment starts outside a string, and no comma is followed across white space by a slash. */
  predicate Bare(t: Bytes)
    decreases |t|
  {
    if t == [] then true
    else if t[0] == QUOTE then Bare(t[StringLen(t)..])
    else !StartsComment(t) && (t[0] == COMMA ==> NoSlashAhead(t[1..])) && Bare(t[1..])
  }

  lemma {:induction false} BareIsUntouched(t: Bytes)
    requires Bare(t)
    ensures Uncomment(t) == t && StarsSpaced(t) && NoStray(t)
    ensures NoSlashAhead(t) ==> NoStrayAhead(t)
    decreases |t|
  {
    if t == [] {
    } else if t[0] == QUOTE {
      BareIsUntouched(t[StringLen(t)..]);
      assert t == t[..StringLen(t)] + t[StringLen(t)..];
    } else {
      BareIsUntouched(t[1..]);
      assert t == [t[0]] + t[1..];
    }
  }

  lemma BareString(t: Bytes, rest: Bytes)
    requires t != [] && t[0] == QUOTE && |rest| == |t| - StringLen(t) && Bare(rest)
    ensures Bare(t[..StringLen(t)] + rest)
  {
    var n := StringLen(t);
    var y := t[..n] + rest;
    CharsLenStable(t[1..], rest);
    assert y[1..] == t[1..][..n - 1] + rest;
    assert y[n..] == rest;
  }

  lemma {:induction false} SpacesAreBare(n: nat, rest: Bytes)
    ensures Bare(rest) ==> Bare(Spaces(n) + rest)
    ensures NoSlashAhead(rest) ==> NoSlashAhead(Spaces(n) + rest)
  {
    if n == 0 {
      assert Spaces(0) + rest == rest;
    } else {
      SpacesAreBare(n - 1, rest);
      assert (Spaces(n) + rest)[1..] == Spaces(n - 1) + rest;
    }
  }

  /** The first pass leaves a bare text, and does not put a slash behind a comma. */
  lemma {:induction false} UncommentIsBare(t: Bytes)
    requires NoStray(t)
    ensures Bare(Uncomment(t))
    ensures NoStrayAhead(t) ==> NoSlashAhead(Uncomment(t))
    decreases |t|
  {
    if t == [] {
    } else if t[0] == QUOTE {
      UncommentIsBare(t[StringLen(t)..]);
      BareString(t, Uncomment(t[StringLen(t)..]));
    } else if StartsComment(t) {
      UncommentIsBare(t[CommentLen(t)..]);
      SpacesAreBare(CommentLen(t), Uncomment(t[CommentLen(t)..]));
    } else {
      UncommentIsBare(t[1..]);
      assert Uncomment(t)[1..] == Uncomment(t[1..]);
      if |t| > 1 { SecondByte(t); }
    }
  }

  /** A comment does not start where none did. */
  lemma SecondByte(t: Bytes)
    requires |t| > 1 && t[0] != QUOTE && !StartsComment(t)
    ensures !StartsComment(Uncomment(t))
  {
    var rest := t[1..];
    if t[0] == SLASH {
      assert rest[0] == t[1];
      assert Uncomment(rest)[0] == rest[0];
    }
  }

  lemma {:induction false} CloserMeansNoSlash(t: Bytes)
    requires CloserAhead(t)
    ensures NoSlashAhead(Untrail(t)) && CloserAhead(Untrail(t))
  {
    if !IsCloser(t[0]) {
      CloserMeansNoSlash(t[1..]);
      assert Untrail(t)[1..] == Untrail(t[1..]);
    }
  }

  lemma {:induction false} UntrailIsBare(v: Bytes)
    requires Bare(v)
    ensures Bare(Untrail(v))
    ensures NoSlashAhead(v) ==> NoSlashAhead(Untrail(v))
    decreases |v|
  {
    if v == [] {
    } else if v[0] == QUOTE {
      UntrailIsBare(v[StringLen(v)..]);
      BareString(v, Untrail(v[StringLen(v)..]));
    } else {
      UntrailIsBare(v[1..]);
      assert Untrail(v)[1..] == Untrail(v[1..]);
      if v[0] == COMMA && CloserAhead(v[1..]) { CloserMeansNoSlash(v[1..]); }
      if |v| > 1 {
        assert Untrail(v[1..])[0] == v[1] || Untrail(v[1..])[0] == SPACE;
      }
    }
  }

  /** Nothing but white space and commas, then a closer. */
  predicate CommasThenCloser(t: Bytes) {
    t != [] && (IsCloser(t[0]) || ((IsWS(t[0]) || t[0] == COMMA) && CommasThenCloser(t[1..])))
  }

  /** No comma outside strings is kept from its closer by further commas alone. */
  predicate NoCommaChain(t: Bytes)
    decreases |t|
  {
    if t == [] then true
    else if t[0] == QUOTE then NoCommaChain(t[StringLen(t)..])
    else (t[0] == COMMA ==> CloserAhead(t[1..]) || !CommasThenCloser(t[1..])) && NoCommaChain(t[1..])
  }

  lemma {:induction false} CloserAfterUntrail(t: Bytes)
    requires NoCommaChain(t)
    ensures CloserAhead(Untrail(t)) <==> CommasThenCloser(t)
    decreases |t|
  {
    if t != [] && !IsCloser(t[0]) && t[0] != QUOTE {
      assert Untrail(t)[1..] == Untrail(t[1..]);
      CloserAfterUntrail(t[1..]);
      if t[0] == COMMA && CloserAhead(t[1..]) { CloserMeansNoSlash(t[1..]); }
    }
  }

  lemma {:induction false} UntrailTwiceIff(v: Bytes)
    ensures Untrail(Untrail(v)) == Untrail(v) <==> NoCommaChain(v)
    decreases |v|
  {
    if v == [] {
    } else if v[0] == QUOTE {
      var rest := v[StringLen(v)..];
      UntrailTwiceIff(rest);
      UntrailString(v, Untrail(rest));
      SameTail(v[..StringLen(v)], Untrail(Untrail(rest)), Untrail(rest));
    } else {
      var c := Untrail(v)[0];
      UntrailTwiceIff(v[1..]);
      assert Untrail(v)[1..] == Untrail(v[1..]);
      if NoCommaChain(v[1..]) { CloserAfterUntrail(v[1..]); }
      SameHeadAndTail(if c == COMMA && CloserAhead(Untrail(v[1..])) then SPACE else c,
                      Untrail(Untrail(v[1..])), c, Untrail(v[1..]));
    }
  }

  /** On texts the stripper treats as specified, running it again changes nothing
      exactly when no comma is kept from its closer by further commas. */
  lemma IdempotentIff(t: Bytes)
    requires NoStray(t) && StarsSpaced(t)
    ensures Strip(Strip(t)) == Strip(t) <==> NoCommaChain(Uncomment(t))
  {
    NoStrayIsFit(t);
    AgreeIff(t);
    UncommentIsBare(t);
    UntrailIsBare(Uncomment(t));
    BareIsUntouched(TwoPass(t));
    NoStrayIsFit(TwoPass(t));
    AgreeIff(TwoPass(t));
    UntrailTwiceIff(Uncomment(t));
  }
}
