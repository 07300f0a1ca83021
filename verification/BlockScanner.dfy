/** extract_block: the brace matcher that skips quoted strings and their escapes. */
module BlockScanner {
  import opened Wrappers

  // ---------- Quotes and depth of a text, read from its start ----------

  /** Outside strings, inside one that a given quote begun, or just after a backslash inside it. */
  datatype Mode = Plain | Quoted(quote: char) | Escaped(quote: char)

  predicate IsQuote(c: char) {
    c == '\'' || c == '"' || c == '`'
  }

  function NextMode(m: Mode, c: char): Mode {
    match m
    case Plain => if IsQuote(c) then Quoted(c) else Plain
    case Quoted(q) => if c == '\\' then Escaped(q) else if c == q then Plain else m
    case Escaped(q) => Quoted(q)
  }

  /** The mode after reading s. */
  function ModeAfter(s: string): Mode {
    if s == "" then Plain else NextMode(ModeAfter(s[..|s| - 1]), s[|s| - 1])
  }

  /** What character c adds to the depth when read in mode m. */
  function Weight(m: Mode, c: char): int {
    if m.Plain? && c == '{' then 1 else if m.Plain? && c == '}' then -1 else 0
  }

  /** The opening braces of s outside strings, less the closing ones. */
  function Depth(s: string): int {
    if s == "" then 0 else Depth(s[..|s| - 1]) + Weight(ModeAfter(s[..|s| - 1]), s[|s| - 1])
  }

  /** s ends with a closing brace outside strings that balances it. */
  predicate ClosesAtEnd(s: string) {
    s != "" && s[|s| - 1] == '}' && ModeAfter(s[..|s| - 1]).Plain? && Depth(s) == 0
  }

  lemma OneMoreCharacter(s: string, c: char)
    ensures ModeAfter(s + [c]) == NextMode(ModeAfter(s), c)
    ensures Depth(s + [c]) == Depth(s) + Weight(ModeAfter(s), c)
    ensures ClosesAtEnd(s + [c]) <==> c == '}' && ModeAfter(s).Plain? && Depth(s) == 1
  {
    assert (s + [c])[..|s|] == s;
  }

  /** text[start..end] is the shortest such slice. */
  ghost predicate FirstClose(text: string, start: nat, end: nat)
    requires start <= |text|
  {
    && start <= end <= |text|
    && ClosesAtEnd(text[start..end])
    && forall e :: start <= e < end ==> !ClosesAtEnd(text[start..e])
  }

  /** The variables of the scan after reading s. */
  predicate Tracks(s: string, depth: int, inString: Option<char>, escaped: bool) {
    && depth == Depth(s)
    && ModeAfter(s) == (if inString.None? then Plain else if escaped then Escaped(inString.value) else Quoted(inString.value))
    && (inString.Some? ==> IsQuote(inString.value))
    && (inString.None? ==> !escaped)
  }

  predicate NoneCloses(text: string, start: nat, end: nat)
    requires start <= end <= |text|
  {
    forall e :: start <= e <= end ==> !ClosesAtEnd(text[start..e])
  }

  /** Reading on from start..index by one character. */
  lemma ReadOn(text: string, start: nat, index: nat)
    requires start <= index < |text| && NoneCloses(text, start, index)
    ensures text[start..index + 1] == text[start..index] + [text[index]]
    ensures !ClosesAtEnd(text[start..index + 1]) ==> NoneCloses(text, start, index + 1)
    ensures ClosesAtEnd(text[start..index + 1]) ==> FirstClose(text, start, index + 1)
  {
  }

  method ExtractBlock(text: string, start: nat) returns (block: Option<(string, nat)>)
    ensures block.Some? ==> start <= |text| && FirstClose(text, start, block.value.1) && block.value.0 == text[start..block.value.1]
    ensures block.None? ==> forall e :: start <= e <= |text| ==> !ClosesAtEnd(text[start..e])
  {
    if start > |text| {
      return None; // no index to look at
    }
    var depth := 0;
    var inString: Option<char> := None;
    var escaped := false;
    assert text[start..start] == "";
    for index := start to |text|
      invariant Tracks(text[start..index], depth, inString, escaped)
      invariant NoneCloses(text, start, index)
    {
      var c := text[index];
      ReadOn(text, start, index);
      OneMoreCharacter(text[start..index], c);
      if inString.Some? {
        if escaped {
          escaped := false;
        } else if c == '\\' {
          escaped := true;
        } else if c == inString.value {
          inString := None;
        }
        continue;
      }
      if c == '\'' || c == '"' || c == '`' {
        inString := Some(c);
        continue;
      }
      if c == '{' {
        depth := depth + 1;
      } else if c == '}' {
        depth := depth - 1;
        if depth == 0 {
          return Some((text[start..index + 1], index + 1));
        }
      }
    }
    return None;
  }

  // ---------- From an opening brace: the shortest balanced slice ----------

  /** Until the depth returns to zero, a text that starts with a brace stays at least one deep. */
  lemma {:induction false} DeepUntilBalanced(s: string, n: nat)
    requires 0 < n <= |s| && s[0] == '{' && forall k :: 0 < k < n ==> Depth(s[..k]) != 0
    ensures Depth(s[..n]) >= 0
    ensures Depth(s[..n]) == 0 ==> ClosesAtEnd(s[..n])
  {
    assert s[..n][..n - 1] == s[..n - 1];
    if n == 1 {
      assert s[..0] == "";
    } else {
      DeepUntilBalanced(s, n - 1);
    }
  }

  /** A slice after which the depth is first back to zero. */
  predicate FirstZero(s: string, n: nat) {
    0 < n <= |s| && Depth(s[..n]) == 0 && forall k :: 0 < k < n ==> Depth(s[..k]) != 0
  }

  lemma FirstCloseIsFirstZero(s: string, n: nat)
    requires s != "" && s[0] == '{' && n <= |s|
    requires ClosesAtEnd(s[..n]) && forall k :: 0 <= k < n ==> !ClosesAtEnd(s[..k])
    ensures FirstZero(s, n)
  {
    if n > 1 {
      FirstZeroCloses(s, n - 1);
    }
  }

  lemma FirstZeroIsFirstClose(s: string, n: nat)
    requires s != "" && s[0] == '{' && FirstZero(s, n)
    ensures ClosesAtEnd(s[..n]) && forall k :: 0 <= k < n ==> !ClosesAtEnd(s[..k])
  {
    DeepUntilBalanced(s, n);
  }

  /** From an opening brace, the slice found is the shortest non-empty one whose braces outside strings balance;
      and there is one to find exactly when some slice balances. */
  lemma ShortestBalanced(text: string, start: nat, end: nat)
    requires start < |text| && text[start] == '{' && start <= end <= |text|
    ensures FirstClose(text, start, end) <==>
            start < end && Depth(text[start..end]) == 0 && forall e :: start < e < end ==> Depth(text[start..e]) != 0
  {
    var s, n := text[start..], end - start;
    forall k | 0 <= k <= |s|
      ensures s[..k] == text[start..start + k]
    {
    }
    if FirstClose(text, start, end) {
      assert forall k :: 0 <= k < n ==> !ClosesAtEnd(s[..k]);
      FirstCloseIsFirstZero(s, n);
      forall e | start < e < end
        ensures Depth(text[start..e]) != 0
      {
        assert s[..e - start] == text[start..e];
      }
    }
    if start < end && Depth(text[start..end]) == 0 && forall e :: start < e < end ==> Depth(text[start..e]) != 0 {
      assert FirstZero(s, n);
      FirstZeroIsFirstClose(s, n);
      forall e | start <= e < end
        ensures !ClosesAtEnd(text[start..e])
      {
        assert s[..e - start] == text[start..e];
      }
    }
  }

  /** If a slice balances, a slice no longer than it closes at its end. */
  lemma {:induction false} FirstZeroCloses(s: string, n: nat)
    requires 0 < n <= |s| && s[0] == '{' && forall k :: 0 <= k <= n ==> !ClosesAtEnd(s[..k])
    ensures Depth(s[..n]) != 0
    ensures forall k :: 0 < k < n ==> Depth(s[..k]) != 0
  {
    if n > 1 {
      FirstZeroCloses(s, n - 1);
    }
    DeepUntilBalanced(s, n);
  }

  lemma FoundExactlyWhenBalanced(text: string, start: nat)
    requires start < |text| && text[start] == '{'
    ensures (exists e :: start <= e <= |text| && ClosesAtEnd(text[start..e]))
            <==> (exists e :: start < e <= |text| && Depth(text[start..e]) == 0)
  {
    var s := text[start..];
    assert forall e :: start <= e <= |text| ==> text[start..e] == s[..e - start];
    if e :| start <= e <= |text| && ClosesAtEnd(text[start..e]) {
      assert e > start && Depth(text[start..e]) == 0;
    }
    if e :| start < e <= |text| && Depth(text[start..e]) == 0 {
      if forall e :: start <= e <= |text| ==> !ClosesAtEnd(text[start..e]) {
        assert forall k :: 0 <= k <= e - start ==> s[..k] == text[start..start + k];
        FirstZeroCloses(s, e - start);
        assert false;
      }
    }
  }

  // ---------- Printed blocks ----------

  /** A character inside a string, or a backslash and the character it escapes. */
  datatype Piece = Char(c: char) | Escape(c: char)

  /** The content of a block: text without quotes and braces, a quoted string, or a nested block. */
  datatype Item = Words(text: string) | Literal(quote: char, pieces: seq<Piece>) | Block(items: seq<Item>)

  function PrintPiece(piece: Piece): string {
    match piece
    case Char(c) => [c]
    case Escape(c) => ['\\', c]
  }

  function PrintPieces(pieces: seq<Piece>): string {
    if pieces == [] then ""
    else PrintPiece(pieces[0]) + PrintPieces(pieces[1..])
  }

  function Print(item: Item): string {
    match item
    case Words(text) => text
    case Literal(quote, pieces) => [quote] + PrintPieces(pieces) + [quote]
    case Block(items) => Braced(PrintAll(items))
  }

  function PrintAll(items: seq<Item>): string {
    if items == [] then "" else Print(items[0]) + PrintAll(items[1..])
  }

  /** Words have none of the characters that the scan reacts to, a string has one of the three quotes around it and
      has neither that quote nor a backslash unescaped inside. */
  predicate WellFormed(item: Item) {
    match item
    case Words(text) => forall i :: 0 <= i < |text| ==> text[i] !in "'\"`{}"
    case Literal(quote, pieces) =>
      quote in "'\"`" && forall i :: 0 <= i < |pieces| && pieces[i].Char? ==> pieces[i].c != quote && pieces[i].c != '\\'
    case Block(items) => forall i :: 0 <= i < |items| ==> WellFormed(items[i])
  }

  lemma Snoc(s: string, t: string)
    requires t != ""
    ensures (s + t)[..|s + t| - 1] == s + t[..|t| - 1]
  {
  }

  /** t, read after s, only closes what it begun itself: the text is plain again and as deep as before, and
      strictly inside t the depth never falls below what it was. */
  ghost predicate Neutral(s: string, t: string) {
    && ModeAfter(s + t).Plain?
    && Depth(s + t) == Depth(s)
    && forall k :: 0 <= k <= |t| ==> Depth(s + t[..k]) >= Depth(s)
  }

  /** t, read after s, ends in mode m and never changes the depth. */
  ghost predicate Silent(s: string, t: string, m: Mode) {
    ModeAfter(s + t) == m && forall k :: 0 <= k <= |t| ==> Depth(s + t[..k]) == Depth(s)
  }

  lemma SilentCharacter(s: string, c: char)
    requires Weight(ModeAfter(s), c) == 0
    ensures Silent(s, [c], NextMode(ModeAfter(s), c))
  {
    assert (s + [c])[..|s|] == s;
    assert s + [c][..0] == s && s + [c][..1] == s + [c];
  }

  lemma SilentThen(s: string, t: string, u: string, m: Mode, m': Mode)
    requires Silent(s, t, m) && Silent(s + t, u, m')
    ensures Silent(s, t + u, m')
  {
    assert s + (t + u) == (s + t) + u;
    assert t[..|t|] == t;
    forall k | 0 <= k <= |t + u|
      ensures Depth(s + (t + u)[..k]) == Depth(s)
    {
      if k <= |t| {
        assert (t + u)[..k] == t[..k];
      } else {
        assert s + (t + u)[..k] == (s + t) + u[..k - |t|];
      }
    }
  }

  lemma PieceIsSilent(s: string, quote: char, piece: Piece)
    requires ModeAfter(s) == Quoted(quote) && (piece.Char? ==> piece.c != quote && piece.c != '\\')
    ensures Silent(s, PrintPiece(piece), Quoted(quote))
  {
    match piece
    case Char(c) => SilentCharacter(s, c);
    case Escape(c) =>
      SilentCharacter(s, '\\');
      SilentCharacter(s + ['\\'], c);
      SilentThen(s, ['\\'], [c], Escaped(quote), Quoted(quote));
      assert ['\\'] + [c] == PrintPiece(piece);
  }

  /** Inside a string nothing counts. */
  lemma {:induction false} PiecesAreSilent(s: string, quote: char, pieces: seq<Piece>)
    requires ModeAfter(s) == Quoted(quote) && WellFormed(Literal(quote, pieces))
    ensures Silent(s, PrintPieces(pieces), Quoted(quote))
    decreases |pieces|
  {
    if pieces == [] {
      assert s + "" == s && ""[..0] == "";
    } else {
      PieceIsSilent(s, quote, pieces[0]);
      PiecesAreSilent(s + PrintPiece(pieces[0]), quote, pieces[1..]);
      SilentThen(s, PrintPiece(pieces[0]), PrintPieces(pieces[1..]), Quoted(quote), Quoted(quote));
    }
  }

  lemma LiteralIsNeutral(s: string, quote: char, pieces: seq<Piece>)
    requires ModeAfter(s).Plain? && WellFormed(Literal(quote, pieces))
    ensures Neutral(s, Print(Literal(quote, pieces)))
  {
    var inside := PrintPieces(pieces);
    SilentCharacter(s, quote);
    PiecesAreSilent(s + [quote], quote, pieces);
    SilentThen(s, [quote], inside, Quoted(quote), Quoted(quote));
    SilentCharacter(s + ([quote] + inside), quote);
    SilentThen(s, [quote] + inside, [quote], Quoted(quote), Plain);
    SilentIsNeutral(s, Print(Literal(quote, pieces)));
  }

  lemma SilentIsNeutral(s: string, t: string)
    requires Silent(s, t, Plain)
    ensures Neutral(s, t)
  {
    assert t[..|t|] == t;
  }

  lemma {:induction false} WordsAreNeutral(s: string, text: string)
    requires ModeAfter(s).Plain? && WellFormed(Words(text))
    ensures Neutral(s, text)
    decreases |text|
  {
    if text == "" {
      assert s + text == s;
    } else {
      var before := text[..|text| - 1];
      WordsAreNeutral(s, before);
      Snoc(s, text);
      forall k | 0 <= k <= |text|
        ensures Depth(s + text[..k]) >= Depth(s)
      {
        if k < |text| {
          assert text[..k] == before[..k];
        } else {
          assert text[..k] == text;
        }
      }
    }
  }

  lemma PrefixOfBoth(s: string, t: string, u: string, k: nat)
    requires k <= |u|
    ensures s + (t + u)[..|t| + k] == (s + t) + u[..k]
  {
    assert (t + u)[..|t| + k] == t + u[..k];
  }

  lemma PrefixOfFirst(t: string, u: string, k: nat)
    requires k <= |t|
    ensures (t + u)[..k] == t[..k]
  {
  }

  lemma NeutralThen(s: string, t: string, u: string)
    requires Neutral(s, t) && Neutral(s + t, u)
    ensures Neutral(s, t + u)
  {
    assert s + (t + u) == (s + t) + u;
    forall k | 0 <= k <= |t + u|
      ensures Depth(s + (t + u)[..k]) >= Depth(s)
    {
      if k <= |t| {
        PrefixOfFirst(t, u, k);
      } else {
        PrefixOfBoth(s, t, u, k - |t|);
      }
    }
  }

  function Braced(inside: string): string {
    "{" + inside + "}"
  }

  /** Between braces, the text is one level deeper ... */
  lemma BracedIsDeeper(s: string, inside: string, k: nat)
    requires ModeAfter(s).Plain? && Neutral(s + "{", inside) && 0 < k < |Braced(inside)|
    ensures Depth(s + Braced(inside)[..k]) > Depth(s)
  {
    OneMoreCharacter(s, '{');
    PrefixOfBoth(s, "{", inside + "}", k - 1);
    PrefixOfFirst(inside, "}", k - 1);
    assert Braced(inside) == "{" + (inside + "}");
  }

  /** ... until the last character closes it. */
  lemma BracedCloses(s: string, inside: string)
    requires ModeAfter(s).Plain? && Neutral(s + "{", inside)
    ensures ModeAfter(s + Braced(inside)).Plain? && Depth(s + Braced(inside)) == Depth(s)
    ensures ModeAfter((s + "{") + inside).Plain? && s + Braced(inside) == ((s + "{") + inside) + "}"
  {
    OneMoreCharacter(s, '{');
    OneMoreCharacter((s + "{") + inside, '}');
    assert s + Braced(inside) == ((s + "{") + inside) + "}";
  }

  lemma BracedIsNeutral(s: string, inside: string)
    requires ModeAfter(s).Plain? && Neutral(s + "{", inside)
    ensures Neutral(s, Braced(inside))
  {
    BracedCloses(s, inside);
    var all := Braced(inside);
    forall k | 0 <= k <= |all|
      ensures Depth(s + all[..k]) >= Depth(s)
    {
      if k == 0 {
        assert s + all[..k] == s;
      } else if k == |all| {
        assert s + all[..k] == s + all;
      } else {
        BracedIsDeeper(s, inside, k);
      }
    }
  }

  lemma {:induction false} ItemIsNeutral(s: string, item: Item)
    requires ModeAfter(s).Plain? && WellFormed(item)
    ensures Neutral(s, Print(item))
    decreases item, 0
  {
    match item
    case Words(text) => WordsAreNeutral(s, text);
    case Literal(quote, pieces) => LiteralIsNeutral(s, quote, pieces);
    case Block(items) =>
      OneMoreCharacter(s, '{');
      ItemsAreNeutral(s + "{", items);
      BracedIsNeutral(s, PrintAll(items));
  }

  lemma {:induction false} ItemsAreNeutral(s: string, items: seq<Item>)
    requires ModeAfter(s).Plain? && forall i :: 0 <= i < |items| ==> WellFormed(items[i])
    ensures Neutral(s, PrintAll(items))
    decreases items, 1
  {
    if items == [] {
      assert s + "" == s;
      assert PrintAll(items) == "" && ""[..0] == "";
    } else {
      ItemIsNeutral(s, items[0]);
      ItemsAreNeutral(s + Print(items[0]), items[1..]);
      NeutralThen(s, Print(items[0]), PrintAll(items[1..]));
    }
  }

  lemma PrintedBlockClosesAtItsEnd(items: seq<Item>, k: nat)
    requires WellFormed(Block(items)) && k <= |Print(Block(items))|
    ensures ClosesAtEnd(Print(Block(items))[..k]) <==> k == |Print(Block(items))|
  {
    var all, inside := Print(Block(items)), PrintAll(items);
    OneMoreCharacter("", '{');
    assert "" + "{" == "{" && "" + ['{'] == "{";
    ItemsAreNeutral("" + "{", items);
    if 0 < k < |all| {
      BracedIsDeeper("", inside, k);
      assert "" + all[..k] == all[..k];
    } else if k == |all| {
      BracedCloses("", inside);
      assert all[..k] == all == "" + all;
      assert all[..|all| - 1] == ("" + "{") + inside;
    }
  }

  /** For any tree of blocks, plain text and escaped strings, printed between any prefix and any suffix, the
      slice found from its opening brace is exactly the printed tree. */
  lemma PrintedBlockIsExtracted(prefix: string, items: seq<Item>, suffix: string, end: nat)
    requires WellFormed(Block(items))
    requires end <= |prefix + Print(Block(items)) + suffix|
    ensures FirstClose(prefix + Print(Block(items)) + suffix, |prefix|, end) <==> end == |prefix| + |Print(Block(items))|
  {
    var all := Print(Block(items));
    var text := prefix + all + suffix;
    forall e | |prefix| <= e <= |prefix| + |all|
      ensures ClosesAtEnd(text[|prefix|..e]) <==> e == |prefix| + |all|
    {
      assert text[|prefix|..e] == all[..e - |prefix|];
      PrintedBlockClosesAtItsEnd(items, e - |prefix|);
    }
    var close := |prefix| + |all|;
    assert ClosesAtEnd(text[|prefix|..close]);
  }
}
