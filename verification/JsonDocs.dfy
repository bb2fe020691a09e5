/** What the stripper means: JSON written with comments and trailing commas becomes
    JSON in the grammar of RFC 8259 (section 2) with the same value. */
module JsonDocs {
  import opened Common
  import opened ByteStrings
  import opened Json5
  import opened Json5TwoPass
  import opened JsonText

  // ---------------------------------------------------------------------------
  // The cleaned tree
  // ---------------------------------------------------------------------------

  function Whites(n: nat): (g: seq<Trivia>)
    ensures |g| == n && StrictGap(g) && ValidGap(g)
  {
    seq(n, _ => White(32))
  }

  function CleanTrivia(p: Trivia): seq<Trivia> {
    match p
    case White(c) => [p]
    case Line(body, end) => Whites(2 + |body|) + [White(end)]
    case Block(body) => Whites(2) + CleanBody(body) + Whites(2)
  }

  /** The white space after a star stays as it is, everything else becomes a space. */
  function CleanBody(body: Bytes): seq<Trivia> {
    if body == [] then []
    else if body[0] == STAR && |body| > 1 then [White(32), White(body[1])] + CleanBody(body[2..])
    else [White(32)] + CleanBody(body[1..])
  }

  function CleanGap(g: seq<Trivia>): seq<Trivia> {
    if g == [] then [] else CleanTrivia(g[0]) + CleanGap(g[1..])
  }

  function CleanKey(k: Key): Key {
    if k.NoKey? then k else Key(k.chars, CleanGap(k.before), CleanGap(k.after))
  }

  function CleanDoc(d: Doc): Doc {
    match d
    case Scalar(_) => d
    case Text(_) => d
    case Container(curly, items) => Container(curly, CleanItems(items))
  }

  /** A trailing comma becomes one more space after its item. */
  function CleanItems(items: Items): Items {
    match items
    case Done(gap) => Done(CleanGap(gap))
    case More(before, key, value, after, tail) =>
      if tail.Comma? && tail.items.Done? then
        More(CleanGap(before), CleanKey(key), CleanDoc(value),
            CleanGap(after) + [White(32)] + CleanGap(tail.items.gap), Close)
      else
        More(CleanGap(before), CleanKey(key), CleanDoc(value), CleanGap(after), CleanTail(tail))
  }

  function CleanTail(tail: Tail): Tail {
    if tail.Close? then Close else Comma(CleanItems(tail.items))
  }

  function Clean(f: File): File {
    File(CleanGap(f.before), CleanDoc(f.doc),
         CleanGap(f.after) + if f.last == [] then [] else Whites(2 + |f.last[0]|), [])
  }

  // ---------------------------------------------------------------------------
  // Gaps
  // ---------------------------------------------------------------------------

  lemma {:induction false} RenderGapConcat(g: seq<Trivia>, h: seq<Trivia>)
    ensures RenderGap(g + h) == RenderGap(g) + RenderGap(h)
  {
    hide RenderTrivia;
    if g == [] {
      assert g + h == h;
    } else {
      RenderGapConcat(g[1..], h);
      assert (g + h)[1..] == g[1..] + h;
      Regroup(RenderTrivia(g[0]), RenderGap(g[1..]), RenderGap(h));
    }
  }

  lemma {:induction false} RenderWhites(n: nat)
    ensures RenderGap(Whites(n)) == Spaces(n)
  {
    if n > 0 {
      RenderWhites(n - 1);
      assert Whites(n)[1..] == Whites(n - 1);
      assert Spaces(n) == [SPACE] + Spaces(n - 1);
    }
  }

  lemma {:induction false} LineLenStops(body: Bytes, end: byte, rest: Bytes)
    requires NoBreak(body) && IsNL(end)
    ensures LineLen(body + ([end] + rest)) == |body|
  {
    if body != [] {
      LineLenStops(body[1..], end, rest);
      assert (body + ([end] + rest))[1..] == body[1..] + ([end] + rest);
    }
  }

  lemma {:induction false} BlockBodyScan(body: Bytes, rest: Bytes)
    requires SpacedBody(body)
    ensures ScanBlock(body + ([STAR, SLASH] + rest)) == RenderGap(CleanBody(body)) + Spaces(2)
    ensures |RenderGap(CleanBody(body))| == |body|
    decreases |body|
  {
    hide ScanBlock, RenderGap, SpacedBody, CleanBody, Spaces, IsWS;
    var end := [STAR, SLASH] + rest;
    CleanSteps(body);
    if body == [] {
      ScanSteps(0, 0, rest);
      assert body + end == end;
      assert [] + Spaces(2) == Spaces(2);
    } else if body[0] == STAR {
      BlockBodyScan(body[2..], rest);
      ScanSteps(0, body[1], body[2..] + end);
      PeelTwo(body, end);
      Regroup([SPACE, body[1]], RenderGap(CleanBody(body[2..])), Spaces(2));
    } else {
      BlockBodyScan(body[1..], rest);
      ScanSteps(body[0], 0, body[1..] + end);
      PeelOne(body, end);
      Regroup([SPACE], RenderGap(CleanBody(body[1..])), Spaces(2));
    }
  }

  lemma PeelOne(a: Bytes, b: Bytes)
    requires a != []
    ensures a + b == [a[0]] + (a[1..] + b)
  {
  }

  lemma PeelTwo(a: Bytes, b: Bytes)
    requires |a| > 1
    ensures a + b == [a[0], a[1]] + (a[2..] + b)
  {
  }

  /** The three kinds of turn on a body whose stars are spaced. */
  lemma ScanSteps(c: byte, w: byte, t: Bytes)
    ensures c != STAR ==> ScanBlock([c] + t) == [SPACE] + ScanBlock(t)
    ensures w != SLASH ==> ScanBlock([STAR, w] + t) == [SPACE, w] + ScanBlock(t)
    ensures ScanBlock([STAR, SLASH] + t) == Spaces(2)
  {
    assert ([c] + t)[1..] == t && ([STAR, w] + t)[2..] == t;
  }

  lemma CleanSteps(body: Bytes)
    requires SpacedBody(body)
    ensures body != [] && body[0] == STAR ==> |body| > 1 && body[1] != SLASH && SpacedBody(body[2..])
    ensures body != [] && body[0] != STAR ==> SpacedBody(body[1..])
    ensures body == [] ==> RenderGap(CleanBody(body)) == []
    ensures body != [] && body[0] == STAR ==>
            RenderGap(CleanBody(body)) == [SPACE, body[1]] + RenderGap(CleanBody(body[2..]))
    ensures body != [] && body[0] != STAR ==> RenderGap(CleanBody(body)) == [SPACE] + RenderGap(CleanBody(body[1..]))
  {
    hide RenderTrivia;
    if body != [] && body[0] == STAR {
      var first, rest := [White(32), White(body[1])], CleanBody(body[2..]);
      RenderGapConcat(first, rest);
      RenderTwo(SPACE, body[1]);
    } else if body != [] {
      RenderGapConcat([White(32)], CleanBody(body[1..]));
      RenderTwo(SPACE, SPACE);
    }
  }

  lemma RenderTwo(c: byte, d: byte)
    ensures RenderGap([White(c)]) == [c] && RenderGap([White(c), White(d)]) == [c, d]
  {
    assert [White(c), White(d)][1..] == [White(d)] && [White(c)][1..] == [] && [White(d)][1..] == [];
  }

  /** One piece of trivia, whatever follows it: the scan and the look-ahead both leave its cleaned text. */
  lemma TriviaTurn(p: Trivia, rest: Bytes)
    requires ValidTrivia(p)
    ensures var out := RenderGap(CleanTrivia(p));
            && |out| == |RenderTrivia(p)|
            && Strip(RenderTrivia(p) + rest) == out + Strip(rest)
            && Look(RenderTrivia(p) + rest) == Ahead(Look(rest).closes, out + Look(rest).out)
  {
    hide Strip, Look, RenderGap, Whites;
    match p
    case White(c) => WhiteTurn(c, rest);
    case Line(body, end) => LineTurn(body, end, rest);
    case Block(body) => BlockTurn(body, rest);
  }

  lemma WhiteTurn(c: byte, rest: Bytes)
    requires IsWS(c)
    ensures RenderGap([White(c)]) == [c]
    ensures Strip([c] + rest) == [c] + Strip(rest)
    ensures Look([c] + rest) == Ahead(Look(rest).closes, [c] + Look(rest).out)
  {
    assert [White(c)][1..] == [];
    assert ([c] + rest)[1..] == rest;
  }

  lemma BlockTurn(body: Bytes, rest: Bytes)
    requires SpacedBody(body)
    ensures var t, out := [SLASH, STAR] + body + [STAR, SLASH] + rest,
            RenderGap(Whites(2) + CleanBody(body) + Whites(2));
            && |out| == 4 + |body|
            && Strip(t) == out + Strip(rest)
            && Look(t) == Ahead(Look(rest).closes, out + Look(rest).out)
  {
    var t, n, inner := [SLASH, STAR] + body + [STAR, SLASH] + rest, 4 + |body|, RenderGap(CleanBody(body));
    BlockShape(body, rest);
    RenderWhites(2);
    RenderGapConcat(Whites(2) + CleanBody(body), Whites(2));
    RenderGapConcat(Whites(2), CleanBody(body));
    hide ScanBlock, SpacedBody, CleanBody, RenderGap, Whites;
    StripUnfold(t);
    TurnCases(t);
    LookUnfold(t);
  }

  lemma BlockShape(body: Bytes, rest: Bytes)
    requires SpacedBody(body)
    ensures var t, n := [SLASH, STAR] + body + [STAR, SLASH] + rest, 4 + |body|;
            Comment(t) == Passed(t) == Spaces(2) + RenderGap(CleanBody(body)) + Spaces(2)
            && |RenderGap(CleanBody(body))| == |body| && t[n..] == rest
  {
    var t := [SLASH, STAR] + body + [STAR, SLASH] + rest;
    assert t[2..] == body + ([STAR, SLASH] + rest);
    BlockBodyScan(body, rest);
    hide ScanBlock, SpacedBody, CleanBody, RenderGap;
    assert [SPACE, SPACE] == Spaces(2);
    Regroup(Spaces(2), RenderGap(CleanBody(body)), Spaces(2));
  }

  lemma LineTurn(body: Bytes, end: byte, rest: Bytes)
    requires NoBreak(body) && IsNL(end)
    ensures var t, out := [SLASH, SLASH] + body + [end] + rest, RenderGap(Whites(2 + |body|) + [White(end)]);
            && out == Spaces(2 + |body|) + [end]
            && Strip(t) == out + Strip(rest)
            && Look(t) == Ahead(Look(rest).closes, out + Look(rest).out)
  {
    var t, n := [SLASH, SLASH] + body + [end] + rest, 2 + |body|;
    RenderGapConcat(Whites(n), [White(end)]);
    RenderWhites(n);
    WhiteTurn(end, rest);
    LineShape(body, end, rest);
    StripUnfold(t);
    LookUnfold(t);
    TurnCases(t);
    hide Strip, Look, Turn, Comment, RenderGap, Whites, Spaces;
    Regroup(Spaces(n), [end], Strip(rest));
    Regroup(Spaces(n), [end], Look(rest).out);
  }

  lemma LineShape(body: Bytes, end: byte, rest: Bytes)
    requires NoBreak(body) && IsNL(end)
    ensures var t, n := [SLASH, SLASH] + body + [end] + rest, 2 + |body|;
            && Comment(t) == Spaces(n) && t[n..] == [end] + rest
            && Passed(t) == Spaces(n) + [end] && t[n + 1..] == rest
  {
    var t := [SLASH, SLASH] + body + [end] + rest;
    assert t[2..] == body + ([end] + rest);
    LineLenStops(body, end, rest);
    hide LineLen, NoBreak;
  }

  lemma {:induction false} GapTurn(g: seq<Trivia>, rest: Bytes)
    requires ValidGap(g)
    ensures var out := RenderGap(CleanGap(g));
            && Strip(RenderGap(g) + rest) == out + Strip(rest)
            && Look(RenderGap(g) + rest) == Ahead(Look(rest).closes, out + Look(rest).out)
            && |out| == |RenderGap(g)|
  {
    if g == [] {
      assert RenderGap(g) + rest == rest;
    } else {
      var tail := RenderGap(g[1..]) + rest;
      GapTurn(g[1..], rest);
      TriviaTurn(g[0], tail);
      Regroup(RenderTrivia(g[0]), RenderGap(g[1..]), rest);
      RenderGapConcat(CleanTrivia(g[0]), CleanGap(g[1..]));
      Regroup(RenderGap(CleanTrivia(g[0])), RenderGap(CleanGap(g[1..])), Strip(rest));
      Regroup(RenderGap(CleanTrivia(g[0])), RenderGap(CleanGap(g[1..])), Look(rest).out);
    }
  }

  // ---------------------------------------------------------------------------
  // Tokens
  // ---------------------------------------------------------------------------

  lemma {:induction false} CharsLenOf(chars: Bytes, rest: Bytes)
    requires ValidChars(chars)
    ensures CharsLen(chars + ([QUOTE] + rest)) == |chars| + 1
    decreases |chars|
  {
    var t := chars + ([QUOTE] + rest);
    if chars == [] {
    } else if chars[0] == BACKSLASH {
      CharsLenOf(chars[2..], rest);
      assert t[2..] == chars[2..] + ([QUOTE] + rest);
    } else {
      CharsLenOf(chars[1..], rest);
      assert t[1..] == chars[1..] + ([QUOTE] + rest);
    }
  }

  lemma StringTurn(chars: Bytes, rest: Bytes)
    requires ValidChars(chars)
    ensures Strip(Quoted(chars) + rest) == Quoted(chars) + Strip(rest)
  {
    var t := Quoted(chars) + rest;
    assert t[1..] == chars + ([QUOTE] + rest);
    CharsLenOf(chars, rest);
    assert t[..|chars| + 2] == Quoted(chars) && t[|chars| + 2..] == rest;
  }

  lemma ByteTurn(c: byte, rest: Bytes)
    requires c != QUOTE && c != SLASH && c != COMMA
    ensures Strip([c] + rest) == [c] + Strip(rest)
  {
    assert ([c] + rest)[1..] == rest;
  }

  lemma {:induction false} PlainTurn(text: Bytes, rest: Bytes)
    requires forall i :: 0 <= i < |text| ==> Plain(text[i])
    ensures Strip(text + rest) == text + Strip(rest)
  {
    hide Strip;
    if text == [] {
      assert text + rest == rest;
    } else {
      assert Plain(text[0]);
      var first, more := [text[0]], text[1..];
      PlainTurn(more, rest);
      ByteTurn(text[0], more + rest);
      assert text == first + more;
      Regroup(first, more, rest);
      Regroup(first, more, Strip(rest));
    }
  }

  /** A comma stays when what follows its gap starts an item. */
  lemma CommaKept(g: seq<Trivia>, rest: Bytes)
    requires ValidGap(g) && rest != [] && !IsCloser(rest[0]) && rest[0] != SLASH && !IsWS(rest[0])
    ensures Strip([COMMA] + (RenderGap(g) + rest)) == [COMMA] + Strip(RenderGap(g) + rest)
  {
    assert Look(rest) == Ahead(false, []);
    CommaBefore(g, rest);
  }

  /** A comma goes when a closer follows its gap. */
  lemma CommaDropped(g: seq<Trivia>, rest: Bytes)
    requires ValidGap(g) && rest != [] && IsCloser(rest[0])
    ensures Strip([COMMA] + (RenderGap(g) + rest)) == [SPACE] + Strip(RenderGap(g) + rest)
  {
    assert Look(rest) == Ahead(true, []);
    CommaBefore(g, rest);
  }

  lemma CommaBefore(g: seq<Trivia>, rest: Bytes)
    requires ValidGap(g) && Look(rest).out == []
    ensures Strip([COMMA] + (RenderGap(g) + rest)) ==
            [if Look(rest).closes then SPACE else COMMA] + Strip(RenderGap(g) + rest)
  {
    hide Strip, Look, RenderGap, CleanGap;
    GapTurn(g, rest);
    CommaTurn(RenderGap(g) + rest);
    assert (RenderGap(g) + rest)[|RenderGap(g)|..] == rest;
    assert RenderGap(CleanGap(g)) + [] == RenderGap(CleanGap(g));
  }

  lemma CommaTurn(t: Bytes)
    ensures Strip([COMMA] + t) == [if Look(t).closes then SPACE else COMMA] + (Look(t).out + Strip(t[|Look(t).out|..]))
  {
    var s := [COMMA] + t;
    assert s[1..] == t;
    CommaCase(s);
  }

  // ---------------------------------------------------------------------------
  // Trees
  // ---------------------------------------------------------------------------

  lemma KeyTurn(k: Key, rest: Bytes)
    requires ValidKey(k)
    ensures Strip(RenderKey(k) + rest) == RenderKey(CleanKey(k)) + Strip(rest)
  {
    if k.NoKey? {
      assert RenderKey(k) + rest == rest;
    } else {
      var r3 := RenderGap(k.after) + rest;
      var r2 := RenderGap(k.before) + ([NAME_SEPARATOR] + r3);
      GapTurn(k.after, rest);
      ByteTurn(NAME_SEPARATOR, r3);
      GapTurn(k.before, [NAME_SEPARATOR] + r3);
      StringTurn(k.chars, r2);
      Four(Quoted(k.chars), RenderGap(k.before), [NAME_SEPARATOR], RenderGap(k.after), rest);
      Four(Quoted(k.chars), RenderGap(CleanGap(k.before)), [NAME_SEPARATOR], RenderGap(CleanGap(k.after)), Strip(rest));
    }
  }

  lemma Four(a: Bytes, b: Bytes, c: Bytes, d: Bytes, e: Bytes)
    ensures (a + (b + (c + d))) + e == a + (b + (c + (d + e)))
  {
  }

  lemma Five(a: Bytes, b: Bytes, c: Bytes, d: Bytes, e: Bytes, f: Bytes)
    ensures (a + (b + (c + (d + e)))) + f == a + (b + (c + (d + (e + f))))
  {
  }

  /** The first byte of an item, after its gap, is no trivia and no closer. */
  lemma ItemStarts(key: Key, value: Doc, rest: Bytes)
    requires ValidDoc(value)
    ensures var t := RenderKey(key) + (RenderDoc(value) + rest);
            t != [] && !IsCloser(t[0]) && t[0] != SLASH && !IsWS(t[0])
  {
    if value.Scalar? { assert Plain(value.text[0]); }
  }

  lemma {:induction false} DocTurn(d: Doc, rest: Bytes)
    requires ValidDoc(d)
    ensures Strip(RenderDoc(d) + rest) == RenderDoc(CleanDoc(d)) + Strip(rest)
    decreases d
  {
    match d
    case Scalar(text) => PlainTurn(text, rest);
    case Text(chars) => StringTurn(chars, rest);
    case Container(curly, items) =>
      var open, close := if curly then BEGIN_OBJECT else BEGIN_ARRAY, Closer(curly);
      var r := [close] + rest;
      ItemsTurn(items, curly, r);
      ByteTurn(close, rest);
      ByteTurn(open, RenderItems(items) + r);
      Three([open], RenderItems(items), [close], rest);
      Three([open], RenderItems(CleanItems(items)), [close], Strip(rest));
  }

  lemma Three(a: Bytes, b: Bytes, c: Bytes, d: Bytes)
    ensures (a + (b + c)) + d == a + (b + (c + d))
  {
  }

  lemma RenderMore(items: Items, rest: Bytes)
    requires items.More?
    ensures RenderItems(items) + rest ==
            RenderGap(items.before)
                + (RenderKey(items.key)
                + (RenderDoc(items.value) + (RenderGap(items.after) + (RenderTail(items.tail) + rest))))
  {
    hide RenderGap, RenderKey, RenderDoc, RenderTail;
    Five(RenderGap(items.before), RenderKey(items.key), RenderDoc(items.value), RenderGap(items.after),
        RenderTail(items.tail), rest);
  }

  lemma CleanMore(items: Items)
    requires items.More?
    ensures var c := CleanItems(items);
            && c.More? && c.before == CleanGap(items.before) && c.key == CleanKey(items.key)
            && c.value == CleanDoc(items.value)
            && if items.tail.Comma? && items.tail.items.Done? then
                 c.after == CleanGap(items.after) + [White(32)] + CleanGap(items.tail.items.gap) && c.tail == Close
               else c.after == CleanGap(items.after) && c.tail == CleanTail(items.tail)
  {
    hide CleanGap, CleanKey, CleanDoc, CleanTail;
  }

  lemma {:induction false} ItemsTurn(items: Items, curly: bool, rest: Bytes)
    requires ValidItems(items, curly) && rest != [] && IsCloser(rest[0])
    ensures Strip(RenderItems(items) + rest) == RenderItems(CleanItems(items)) + Strip(rest)
    decreases items
  {
    if items.Done? {
      GapTurn(items.gap, rest);
    } else {
      hide Strip, RenderGap, CleanGap, RenderDoc, RenderKey, CleanDoc, CleanKey, RenderItems, CleanItems, CleanTail;
      hide RenderTail;
      var r4 := RenderTail(items.tail) + rest;
      var r3 := RenderGap(items.after) + r4;
      var r2 := RenderDoc(items.value) + r3;
      var r1 := RenderKey(items.key) + r2;
      RenderMore(items, rest);
      GapTurn(items.before, r1);
      KeyTurn(items.key, r2);
      DocTurn(items.value, r3);
      GapTurn(items.after, r4);
      TailTurn(items.after, items.tail, curly, rest);
      CleanMore(items);
      RenderMore(CleanItems(items), Strip(rest));
      CloseIsNothing(Strip(rest));
    }
  }

  lemma CloseIsNothing(rest: Bytes)
    ensures RenderTail(Close) + rest == rest
  {
  }

  lemma {:induction false} TailTurn(after: seq<Trivia>, tail: Tail, curly: bool, rest: Bytes)
    requires ValidGap(after) && ValidTail(tail, curly) && rest != [] && IsCloser(rest[0])
    ensures RenderGap(CleanGap(after)) + Strip(RenderTail(tail) + rest) ==
            if tail.Comma? && tail.items.Done? then
                RenderGap(CleanGap(after) + [White(32)] + CleanGap(tail.items.gap)) + Strip(rest)
            else RenderGap(CleanGap(after)) + (RenderTail(CleanTail(tail)) + Strip(rest))
    decreases tail
  {
    if tail.Close? {
      assert [] + rest == rest && [] + Strip(rest) == Strip(rest);
    } else {
      var items := tail.items;
      Regroup([COMMA], RenderItems(items), rest);
      ItemsTurn(items, curly, rest);
      match items
      case Done(gap) =>
        CommaDropped(gap, rest);
        RenderGapConcat(CleanGap(after) + [White(32)], CleanGap(gap));
        RenderGapConcat(CleanGap(after), [White(32)]);
        assert [White(32)][1..] == [] && RenderGap([White(32)]) == [SPACE];
        Three(RenderGap(CleanGap(after)), [SPACE], RenderGap(CleanGap(gap)), Strip(rest));
        Regroup(RenderGap(CleanGap(after)), [SPACE], RenderGap(CleanGap(gap)));
      case More(before, key, value, after2, tail2) =>
        var r := RenderGap(after2) + RenderTail(tail2);
        ItemStarts(key, value, r + rest);
        Five(RenderGap(before), RenderKey(key), RenderDoc(value), RenderGap(after2), RenderTail(tail2), rest);
        Regroup(RenderGap(after2), RenderTail(tail2), rest);
        CommaKept(before, RenderKey(key) + (RenderDoc(value) + (r + rest)));
        Regroup([COMMA], RenderItems(CleanItems(items)), Strip(rest));
    }
  }

  lemma LastTurn(last: seq<Bytes>)
    requires |last| <= 1 && forall i :: 0 <= i < |last| ==> NoBreak(last[i])
    ensures Strip(RenderLast(last)) == RenderGap(if last == [] then [] else Whites(2 + |last[0]|))
  {
    if last != [] {
      var t := RenderLast(last);
      RenderWhites(2 + |last[0]|);
      assert t[2..] == last[0];
      WholeLine(last[0]);
      assert Comment(t) == Spaces(|t|) && t[|t|..] == [];
      assert Strip([]) == [] && Spaces(|t|) + [] == Spaces(|t|);
    }
  }

  lemma {:induction false} WholeLine(body: Bytes)
    requires NoBreak(body)
    ensures LineLen(body) == |body|
  {
    if body != [] { WholeLine(body[1..]); }
  }

  // ---------------------------------------------------------------------------
  // Main results
  // ---------------------------------------------------------------------------

  lemma CleanGapIsStrict(g: seq<Trivia>)
    requires ValidGap(g)
    ensures StrictGap(CleanGap(g)) && ValidGap(CleanGap(g))
    ensures StrictGap(g) ==> CleanGap(g) == g
  {
    if g != [] {
      assert ValidTrivia(g[0]);
      if g[0].Block? { CleanBodyIsStrict(g[0].body); }
      CleanGapIsStrict(g[1..]);
      assert g == [g[0]] + g[1..];
    }
  }

  lemma {:induction false} CleanBodyIsStrict(body: Bytes)
    requires SpacedBody(body)
    ensures StrictGap(CleanBody(body)) && ValidGap(CleanBody(body))
    decreases |body|
  {
    if body == [] {
    } else if body[0] == STAR {
      CleanBodyIsStrict(body[2..]);
    } else {
      CleanBodyIsStrict(body[1..]);
    }
  }

  lemma {:induction false} CleanDocIsStrict(d: Doc)
    requires ValidDoc(d)
    ensures StrictDoc(CleanDoc(d)) && ValidDoc(CleanDoc(d)) && ValueOf(CleanDoc(d)) == ValueOf(d)
    ensures StrictDoc(d) ==> CleanDoc(d) == d
  {
    if d.Container? { CleanItemsIsStrict(d.items, d.curly); }
  }

  lemma {:induction false} CleanItemsIsStrict(items: Items, curly: bool)
    requires ValidItems(items, curly)
    ensures StrictItems(CleanItems(items)) && ValidItems(CleanItems(items), curly)
            && Members(CleanItems(items)) == Members(items)
    ensures StrictItems(items) ==> CleanItems(items) == items
  {
    hide CleanGap, StrictGap, ValidGap, CleanDoc, StrictDoc, ValidDoc, ValueOf, CleanKey, StrictKey, ValidKey;
    match items
    case Done(gap) => CleanGapIsStrict(gap);
    case More(before, key, value, after, tail) =>
      CleanGapIsStrict(before);
      CleanGapIsStrict(after);
      CleanDocIsStrict(value);
      CleanKeyIsStrict(key);
      if tail.Comma? {
        CleanItemsIsStrict(tail.items, curly);
        if tail.items.Done? {
          CleanGapIsStrict(tail.items.gap);
          JoinedGap(CleanGap(after), CleanGap(tail.items.gap));
        }
      }
  }

  lemma CleanKeyIsStrict(k: Key)
    requires ValidKey(k)
    ensures StrictKey(CleanKey(k)) && ValidKey(CleanKey(k))
    ensures CleanKey(k).Key? == k.Key? && (k.Key? ==> CleanKey(k).chars == k.chars)
    ensures StrictKey(k) ==> CleanKey(k) == k
  {
    if k.Key? {
      CleanGapIsStrict(k.before);
      CleanGapIsStrict(k.after);
    }
  }

  lemma JoinedGap(a: seq<Trivia>, b: seq<Trivia>)
    requires StrictGap(a) && ValidGap(a) && StrictGap(b) && ValidGap(b)
    ensures StrictGap(a + [White(32)] + b) && ValidGap(a + [White(32)] + b)
  {
  }

  /** Stripping a file leaves the text of its cleaned tree, which is in the strict grammar and has the same value. */
  lemma StripKeepsMeaning(f: File)
    requires ValidFile(f)
    ensures Strip(Render(f)) == Render(Clean(f))
    ensures ValidFile(Clean(f)) && StrictFile(Clean(f)) && ValueOf(Clean(f).doc) == ValueOf(f.doc)
  {
    CleanIsStrict(f);
    var end := if f.last == [] then [] else Whites(2 + |f.last[0]|);
    assert RenderLast([]) == [];
    hide Strip, Look, RenderGap, RenderDoc, RenderLast, CleanGap, CleanDoc, ValueOf, ValidDoc, StrictDoc, StrictGap;
    hide Whites;
    var r := RenderGap(f.after) + RenderLast(f.last);
    GapTurn(f.before, RenderDoc(f.doc) + r);
    DocTurn(f.doc, r);
    GapTurn(f.after, RenderLast(f.last));
    LastTurn(f.last);
    RenderGapConcat(CleanGap(f.after), end);
    assert RenderGap(CleanGap(f.after) + end) + [] == RenderGap(CleanGap(f.after) + end);
  }

  lemma CleanIsStrict(f: File)
    requires ValidFile(f)
    ensures ValidFile(Clean(f)) && StrictFile(Clean(f)) && ValueOf(Clean(f).doc) == ValueOf(f.doc)
  {
    CleanGapIsStrict(f.before);
    CleanGapIsStrict(f.after);
    CleanDocIsStrict(f.doc);
  }

  /** On strict JSON the stripper is the identity. */
  lemma StrictJsonIsUntouched(f: File)
    requires ValidFile(f) && StrictFile(f)
    ensures Strip(Render(f)) == Render(f)
  {
    StripKeepsMeaning(f);
    CleanGapIsStrict(f.before);
    CleanGapIsStrict(f.after);
    CleanDocIsStrict(f.doc);
    assert CleanGap(f.after) + [] == CleanGap(f.after);
  }

  /** Stripping a stripped file changes nothing. */
  lemma StripTwice(f: File)
    requires ValidFile(f)
    ensures Strip(Strip(Render(f))) == Strip(Render(f))
  {
    StripKeepsMeaning(f);
    StrictJsonIsUntouched(Clean(f));
  }

  // ---------------------------------------------------------------------------
  // In bytes
  // ---------------------------------------------------------------------------

  predicate BlankBytes(gap: Bytes) {
    forall i :: 0 <= i < |gap| ==> gap[i] == 9 || gap[i] == 10 || gap[i] == 13 || gap[i] == 32
  }

  lemma {:induction false} BlanksPassed(gap: Bytes, rest: Bytes)
    requires BlankBytes(gap)
    ensures Strip(gap + rest) == gap + Strip(rest)
    ensures Look(gap + rest) == Ahead(Look(rest).closes, gap + Look(rest).out)
  {
    hide Strip, Look, RenderGap;
    if gap == [] {
      assert gap + rest == rest && gap + Strip(rest) == Strip(rest) && gap + Look(rest).out == Look(rest).out;
    } else {
      BlanksPassed(gap[1..], rest);
      WhiteTurn(gap[0], gap[1..] + rest);
      PeelOne(gap, rest);
      PeelOne(gap, Strip(rest));
      PeelOne(gap, Look(rest).out);
    }
  }

  lemma CommaOverBlanks(gap: Bytes, rest: Bytes)
    requires BlankBytes(gap) && Look(rest).out == []
    ensures Strip([44] + (gap + rest)) == [if Look(rest).closes then 32 else 44] + (gap + Strip(rest))
  {
    hide Strip, Look;
    BlanksPassed(gap, rest);
    CommaTurn(gap + rest);
    assert (gap + rest)[|gap|..] == rest && gap + [] == gap;
  }

  /** A comma before tab, line feed, carriage return or space, any number of them, and then `]` or `}` becomes
      a space. */
  lemma CommaAtCloser(gap: Bytes, closer: byte, rest: Bytes)
    requires BlankBytes(gap) && (closer == 93 || closer == 125)
    ensures Strip([44] + (gap + ([closer] + rest))) == [32] + (gap + ([closer] + Strip(rest)))
  {
    LookEnds([closer] + rest);
    ByteTurn(closer, rest);
    hide Strip, Look;
    CommaOverBlanks(gap, [closer] + rest);
  }

  /** Before any other byte that starts no comment it stays, and so it does at the end. */
  lemma CommaElsewhere(gap: Bytes, rest: Bytes)
    requires BlankBytes(gap)
    requires rest != [] ==> rest[0] != 9 && rest[0] != 10 && rest[0] != 13 && rest[0] != 32 && rest[0] != 47
                            && rest[0] != 93 && rest[0] != 125
    ensures Strip([44] + (gap + rest)) == [44] + (gap + Strip(rest))
  {
    LookEnds(rest);
    hide Strip, Look;
    CommaOverBlanks(gap, rest);
  }

  /** A line comment ends before the first line feed or carriage return, which stays; all else becomes spaces. */
  lemma LineCommentInBytes(body: Bytes, end: byte, rest: Bytes)
    requires (end == 10 || end == 13) && forall i :: 0 <= i < |body| ==> body[i] != 10 && body[i] != 13
    ensures Strip([47, 47] + body + [end] + rest) == seq(2 + |body|, _ => 32) + [end] + Strip(rest)
  {
    LineTurn(body, end, rest);
    assert Spaces(2 + |body|) == seq(2 + |body|, _ => 32);
  }

  lemma CommentTurn(t: Bytes, out: Bytes, rest: Bytes)
    requires t != [] && t[0] == 47 && Comment(t) == out && t[|out|..] == rest
    ensures Strip(t) == out + Strip(rest)
  {
    hide Comment, Strip;
    TurnCases(t);
    StripUnfold(t);
  }

  lemma BlockInBytes(body: Bytes, after: Bytes)
    requires forall i :: 0 <= i < |body| ==> body[i] != 42
    ensures var t := [47, 42] + (body + after);
            t[0] == 47 && Comment(t) == seq(2 + |body|, _ => 32) + ScanBlock(after)
  {
    var t := [47, 42] + (body + after);
    assert t[2..] == body + after;
    StarFreeScan(body, after);
    hide ScanBlock;
    assert IsBlock(t) && !IsLine(t);
    assert [SPACE, SPACE] + (seq(|body|, _ => 32) + ScanBlock(after)) == seq(2 + |body|, _ => 32) + ScanBlock(after);
  }

  lemma ClosedBlockParts(body: Bytes, rest: Bytes)
    ensures ([47, 42] + (body + ([42, 47] + rest)))[4 + |body|..] == rest
    ensures seq(2 + |body|, _ => 32 as byte) + [32, 32] == seq(4 + |body|, _ => 32 as byte)
  {
  }

  /** A block comment without stars inside becomes spaces. */
  lemma BlockCommentInBytes(body: Bytes, rest: Bytes)
    requires forall i :: 0 <= i < |body| ==> body[i] != 42
    ensures Strip([47, 42] + (body + ([42, 47] + rest))) == seq(4 + |body|, _ => 32) + Strip(rest)
  {
    BlockInBytes(body, [42, 47] + rest);
    ScanSteps(0, 0, rest);
    hide ScanBlock, Comment, Strip;
    ClosedBlockParts(body, rest);
    CommentTurn([47, 42] + (body + ([42, 47] + rest)), seq(4 + |body|, _ => 32), rest);
  }

  /** One that is not closed becomes spaces to the end. */
  lemma OpenBlockInBytes(body: Bytes)
    requires forall i :: 0 <= i < |body| ==> body[i] != 42
    ensures Strip([47, 42] + body) == seq(2 + |body|, _ => 32)
  {
    BlockInBytes(body, []);
    assert ScanBlock([]) == [] && Strip([]) == [];
    hide ScanBlock, Comment, Strip;
    assert body + [] == body && ([47, 42] + body)[2 + |body|..] == [];
    CommentTurn([47, 42] + body, seq(2 + |body|, _ => 32), []);
  }

  lemma {:induction false} StarFreeScan(body: Bytes, rest: Bytes)
    requires forall i :: 0 <= i < |body| ==> body[i] != 42
    ensures ScanBlock(body + rest) == seq(|body|, _ => 32) + ScanBlock(rest)
  {
    if body == [] {
      assert body + rest == rest && seq(0, _ => 32) + ScanBlock(rest) == ScanBlock(rest);
    } else {
      StarFreeScan(body[1..], rest);
      ScanSteps(body[0], 0, body[1..] + rest);
      PeelOne(body, rest);
      assert seq(|body|, _ => 32) + ScanBlock(rest) == [32] + (seq(|body| - 1, _ => 32) + ScanBlock(rest));
    }
  }
}
