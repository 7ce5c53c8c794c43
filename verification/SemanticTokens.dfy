/**
 Semantic tokens (lsp/semantic_tokens.go, FindTokensByType): positions arrive as differences
 (LSP 3.17, "Integer Encoding for Tokens"), here relative to the start of a base range. All
 numbers are uint32 and additions wrap around.
 */
module SemanticTokens {
  import opened Collections
  import opened Wrappers

  const LIMIT := 0x1_0000_0000

  type uint32 = x: int | 0 <= x < 0x1_0000_0000

  function Add(a: uint32, b: uint32): uint32 {
    (a + b) % LIMIT
  }

  datatype Token = Token(line: uint32, character: uint32, length: uint32, typeIndex: uint32, modifiers: uint32)

  datatype TokenPosition = TokenPosition(tokenType: string, line: uint32, startChar: uint32, endChar: uint32)

  /** The decoder reads four numbers of each group of five, so a last group of four is read as well. */
  predicate Readable(data: seq<uint32>) {
    |data| % 5 == 0 || |data| % 5 == 4
  }

  /** The position of the first token when the cursor stands at (line, character). */
  function First(data: seq<uint32>, line: uint32, character: uint32): Token
    requires |data| >= 4
  {
    Token(if data[0] > 0 then Add(line, data[0]) else line,
          if data[0] > 0 then data[1] else Add(character, data[1]),
          data[2], data[3], if |data| >= 5 then data[4] else 0)
  }

  function Rest(data: seq<uint32>): seq<uint32> {
    if |data| >= 5 then data[5..] else []
  }

  function Decode(data: seq<uint32>, line: uint32, character: uint32): seq<Token>
    requires Readable(data)
    decreases |data|
  {
    if data == [] then []
    else
      var t := First(data, line, character);
      [t] + Decode(Rest(data), t.line, t.character)
  }

  predicate AtOrAfter(t: Token, line: uint32, character: uint32) {
    t.line > line || (t.line == line && t.character >= character)
  }

  /** Sorted by position, from (line, character) on. */
  predicate SortedFrom(tokens: seq<Token>, line: uint32, character: uint32) {
    tokens != [] ==>
      AtOrAfter(tokens[0], line, character) && SortedFrom(tokens[1..], tokens[0].line, tokens[0].character)
  }

  function Encode(tokens: seq<Token>, line: uint32, character: uint32): (data: seq<uint32>)
    requires SortedFrom(tokens, line, character)
    ensures |data| == 5 * |tokens|
  {
    if tokens == [] then []
    else
      var t := tokens[0];
      [t.line - line, if t.line == line then t.character - character else t.character,
       t.length, t.typeIndex, t.modifiers]
      + Encode(tokens[1..], t.line, t.character)
  }

  /** Decoding inverts encoding for every sorted token list. */
  lemma {:induction false} DecodeEncode(tokens: seq<Token>, line: uint32, character: uint32)
    requires SortedFrom(tokens, line, character)
    ensures Decode(Encode(tokens, line, character), line, character) == tokens
  {
    if tokens != [] {
      var t, data := tokens[0], Encode(tokens, line, character);
      DecodeEncode(tokens[1..], t.line, t.character);
      assert data[5..] == Encode(tokens[1..], t.line, t.character);
      assert First(data, line, character) == t;
      assert tokens == [t] + tokens[1..];
    }
  }

  /** No cursor addition wraps around. */
  predicate NoWrap(data: seq<uint32>, line: uint32, character: uint32)
    requires Readable(data)
    decreases |data|
  {
    data != [] ==>
      && (if data[0] > 0 then line + data[0] < LIMIT else character + data[1] < LIMIT)
      && var t := First(data, line, character);
      NoWrap(Rest(data), t.line, t.character)
  }

  /** The decoded tokens are sorted exactly when no addition wrapped, and then encoding gives the data back. */
  lemma {:induction false} EncodeDecode(data: seq<uint32>, line: uint32, character: uint32)
    requires |data| % 5 == 0
    ensures SortedFrom(Decode(data, line, character), line, character) <==> NoWrap(data, line, character)
    ensures NoWrap(data, line, character) ==> Encode(Decode(data, line, character), line, character) == data
  {
    if data != [] {
      var t := First(data, line, character);
      EncodeDecode(data[5..], t.line, t.character);
      var tokens := Decode(data, line, character);
      assert tokens[0] == t && tokens[1..] == Decode(data[5..], t.line, t.character);
      FirstInOrder(data, line, character);
      if NoWrap(data, line, character) {
        EncodeFirst(data, tokens, line, character);
      }
    }
  }

  lemma FirstInOrder(data: seq<uint32>, line: uint32, character: uint32)
    requires |data| >= 4
    ensures AtOrAfter(First(data, line, character), line, character)
       <==> if data[0] > 0 then line + data[0] < LIMIT else character + data[1] < LIMIT
  {
  }

  lemma EncodeFirst(data: seq<uint32>, tokens: seq<Token>, line: uint32, character: uint32)
    requires |data| >= 5 && tokens != [] && tokens[0] == First(data, line, character)
    requires if data[0] > 0 then line + data[0] < LIMIT else character + data[1] < LIMIT
    requires SortedFrom(tokens, line, character)
    requires Encode(tokens[1..], tokens[0].line, tokens[0].character) == data[5..]
    ensures Encode(tokens, line, character) == data
  {
    assert data == data[..5] + data[5..];
    assert data[..5] == [data[0], data[1], data[2], data[3], data[4]];
  }

  // ----- finding tokens by type

  predicate Wanted(t: Token, tokenTypes: seq<string>, targets: seq<string>) {
    t.typeIndex < |tokenTypes| && tokenTypes[t.typeIndex] in targets
  }

  function ToPosition(t: Token, tokenTypes: seq<string>): TokenPosition
    requires t.typeIndex < |tokenTypes|
  {
    TokenPosition(tokenTypes[t.typeIndex], t.line, t.character, Add(t.character, t.length))
  }

  /** The wanted tokens, in order. */
  function Select(tokens: seq<Token>, tokenTypes: seq<string>, targets: seq<string>): seq<TokenPosition> {
    if tokens == [] then []
    else
      (if Wanted(tokens[0], tokenTypes, targets) then [ToPosition(tokens[0], tokenTypes)] else [])
      + Select(tokens[1..], tokenTypes, targets)
  }

  /**
   Exactly the wanted tokens of the full decode: tokens of other or unknown types still move the cursor.
   None stands for the crash on a last group of one to three numbers.
   */
  method FindTokensByType(data: seq<uint32>, tokenTypes: seq<string>, targetTypes: seq<string>, baseLine: uint32,
                          baseChar: uint32)
    returns (found: Option<seq<TokenPosition>>)
    ensures found.Some? <==> Readable(data)
    ensures Readable(data) ==> found == Some(Select(Decode(data, baseLine, baseChar), tokenTypes, targetTypes))
  {
    var results: seq<TokenPosition> := [];
    var currentLine, currentChar := baseLine, baseChar;
    var i := 0;
    if Readable(data) {
      FoundAtStart(data, baseLine, baseChar, tokenTypes, targetTypes);
    }
    while i < |data|
      invariant 0 <= i <= |data| + 1 && i % 5 == 0
      invariant Readable(data) ==>
                  FoundSoFar(results, data, i, currentLine, currentChar, baseLine, baseChar, tokenTypes, targetTypes)
    {
      if |data| < i + 4 {
        return None;
      }
      if Readable(data) {
        FoundStep(results, data, i, currentLine, currentChar, baseLine, baseChar, tokenTypes, targetTypes);
      }
      var deltaLine, deltaStart, tokenLength, tokenTypeIndex := data[i], data[i + 1], data[i + 2], data[i + 3];
      if deltaLine > 0 {
        currentLine := Add(currentLine, deltaLine);
        currentChar := deltaStart;
      } else {
        currentChar := Add(currentChar, deltaStart);
      }
      if tokenTypeIndex < |tokenTypes| && tokenTypes[tokenTypeIndex] in targetTypes {
        results := results + [TokenPosition(tokenTypes[tokenTypeIndex], currentLine, currentChar,
                                            Add(currentChar, tokenLength))];
      }
      i := i + 5;
    }
    FoundAtEnd(results, data, i, currentLine, currentChar, baseLine, baseChar, tokenTypes, targetTypes);
    found := Some(results);
  }

  /** The loop invariant: the results so far, followed by what the rest of the data will give, are the answer. */
  ghost predicate FoundSoFar(results: seq<TokenPosition>, data: seq<uint32>, i: nat, line: uint32, character: uint32,
                             baseLine: uint32, baseChar: uint32, tokenTypes: seq<string>, targets: seq<string>) {
    && Readable(data) && Readable(From(data, i))
    && Select(Decode(data, baseLine, baseChar), tokenTypes, targets)
       == results + Select(Decode(From(data, i), line, character), tokenTypes, targets)
  }

  lemma FoundAtStart(data: seq<uint32>, baseLine: uint32, baseChar: uint32, tokenTypes: seq<string>,
                     targets: seq<string>)
    requires Readable(data)
    ensures FoundSoFar([], data, 0, baseLine, baseChar, baseLine, baseChar, tokenTypes, targets)
  {
    assert From(data, 0) == data;
  }

  lemma FoundAtEnd(results: seq<TokenPosition>, data: seq<uint32>, i: nat, line: uint32, character: uint32,
                   baseLine: uint32, baseChar: uint32, tokenTypes: seq<string>, targets: seq<string>)
    requires FoundSoFar(results, data, i, line, character, baseLine, baseChar, tokenTypes, targets) && i >= |data|
    ensures results == Select(Decode(data, baseLine, baseChar), tokenTypes, targets)
  {
    assert From(data, i) == [];
  }

  lemma FoundStep(results: seq<TokenPosition>, data: seq<uint32>, i: nat, line: uint32, character: uint32,
                  baseLine: uint32, baseChar: uint32, tokenTypes: seq<string>, targets: seq<string>)
    requires FoundSoFar(results, data, i, line, character, baseLine, baseChar, tokenTypes, targets)
    requires i % 5 == 0 && i < |data|
    ensures i + 4 <= |data|
    ensures var l := if data[i] > 0 then Add(line, data[i]) else line;
            var c := if data[i] > 0 then data[i + 1] else Add(character, data[i + 1]);
            var more := if data[i + 3] < |tokenTypes| && tokenTypes[data[i + 3]] in targets
                        then results + [TokenPosition(tokenTypes[data[i + 3]], l, c, Add(c, data[i + 2]))] else results;
            FoundSoFar(more, data, i + 5, l, c, baseLine, baseChar, tokenTypes, targets)
  {
    SelectStep(data, i, line, character, tokenTypes, targets);
    var t := First(From(data, i), line, character);
    var rest := Select(Decode(From(data, i + 5), t.line, t.character), tokenTypes, targets);
    if Wanted(t, tokenTypes, targets) {
      Regroup(results, [ToPosition(t, tokenTypes)], rest);
    } else {
      assert [] + rest == rest;
    }
  }

  /** What is left of the data at index `i`; after a last group of four the index is one past the end. */
  function From(data: seq<uint32>, i: nat): seq<uint32> {
    if i <= |data| then data[i..] else []
  }

  lemma FromStep(data: seq<uint32>, i: nat)
    requires Readable(data) && i % 5 == 0 && i < |data|
    ensures i + 4 <= |data| && Readable(From(data, i)) && Readable(From(data, i + 5))
    ensures From(data, i)[..4] == [data[i], data[i + 1], data[i + 2], data[i + 3]]
    ensures Rest(From(data, i)) == From(data, i + 5)
  {
    var left := From(data, i);
    assert left[0] == data[i] && left[1] == data[i + 1] && left[2] == data[i + 2] && left[3] == data[i + 3];
    if i + 5 <= |data| {
      assert left[5..] == data[i + 5..];
    }
  }

  lemma SelectStep(data: seq<uint32>, i: nat, line: uint32, character: uint32, tokenTypes: seq<string>,
                   targets: seq<string>)
    requires Readable(data) && i % 5 == 0 && i < |data|
    ensures i + 4 <= |data| && Readable(From(data, i)) && Readable(From(data, i + 5)) && |From(data, i)| >= 4
    ensures First(From(data, i), line, character).length == data[i + 2]
    ensures First(From(data, i), line, character).typeIndex == data[i + 3]
    ensures First(From(data, i), line, character).line == if data[i] > 0 then Add(line, data[i]) else line
    ensures First(From(data, i), line, character).character
         == if data[i] > 0 then data[i + 1] else Add(character, data[i + 1])
    ensures var t := First(From(data, i), line, character);
            Select(Decode(From(data, i), line, character), tokenTypes, targets)
            == (if Wanted(t, tokenTypes, targets) then [ToPosition(t, tokenTypes)] else [])
               + Select(Decode(From(data, i + 5), t.line, t.character), tokenTypes, targets)
  {
    FromStep(data, i);
    var left := From(data, i);
    assert left[0] == left[..4][0] && left[1] == left[..4][1] && left[2] == left[..4][2] && left[3] == left[..4][3];
    DecodeHead(left, line, character, tokenTypes, targets);
  }

  lemma DecodeHead(data: seq<uint32>, line: uint32, character: uint32, tokenTypes: seq<string>, targets: seq<string>)
    requires Readable(data) && data != []
    ensures var t := First(data, line, character);
            Select(Decode(data, line, character), tokenTypes, targets)
            == (if Wanted(t, tokenTypes, targets) then [ToPosition(t, tokenTypes)] else [])
               + Select(Decode(Rest(data), t.line, t.character), tokenTypes, targets)
  {
    var t, tokens := First(data, line, character), Decode(data, line, character);
    assert tokens[0] == t && tokens[1..] == Decode(Rest(data), t.line, t.character);
  }

  /** `p` says where the token is and of which wanted type; its end wraps around like all numbers. */
  predicate PositionOf(t: Token, p: TokenPosition, tokenTypes: seq<string>, targets: seq<string>) {
    && t.typeIndex < |tokenTypes| && p.tokenType == tokenTypes[t.typeIndex] && p.tokenType in targets
    && p.line == t.line && p.startChar == t.character
    && p.endChar == if t.character + t.length < LIMIT then t.character + t.length else t.character + t.length - LIMIT
  }

  lemma WantedPosition(t: Token, tokenTypes: seq<string>, targets: seq<string>, p: TokenPosition)
    ensures PositionOf(t, p, tokenTypes, targets) <==> Wanted(t, tokenTypes, targets) && ToPosition(t, tokenTypes) == p
  {
    AddWraps(t.character, t.length);
  }

  /** One token gives its position if it is wanted, and several give the positions of each, in order. */
  lemma {:induction false} SelectsInOrder(a: seq<Token>, b: seq<Token>, tokenTypes: seq<string>, targets: seq<string>)
    ensures Select(a + b, tokenTypes, targets) == Select(a, tokenTypes, targets) + Select(b, tokenTypes, targets)
  {
    if a == [] {
      assert a + b == b;
    } else {
      assert (a + b)[1..] == a[1..] + b;
      SelectsInOrder(a[1..], b, tokenTypes, targets);
    }
  }

  lemma SelectsOne(t: Token, tokenTypes: seq<string>, targets: seq<string>)
    ensures |Select([t], tokenTypes, targets)| <= 1
    ensures forall p :: p in Select([t], tokenTypes, targets) <==> PositionOf(t, p, tokenTypes, targets)
  {
    assert [t][1..] == [];
    forall p
      ensures PositionOf(t, p, tokenTypes, targets)
         <==> Wanted(t, tokenTypes, targets) && ToPosition(t, tokenTypes) == p
    {
      WantedPosition(t, tokenTypes, targets, p);
    }
  }

  /** Filtering a sorted list by type: on the wire and back, exactly the wanted tokens come out. */
  lemma SelectsFromEncoded(tokens: seq<Token>, line: uint32, character: uint32, tokenTypes: seq<string>,
                           targets: seq<string>)
    requires SortedFrom(tokens, line, character)
    ensures Select(Decode(Encode(tokens, line, character), line, character), tokenTypes, targets)
         == Select(tokens, tokenTypes, targets)
    ensures forall p :: p in Select(tokens, tokenTypes, targets)
              <==> exists t :: t in tokens && PositionOf(t, p, tokenTypes, targets)
  {
    DecodeEncode(tokens, line, character);
    SelectMembers(tokens, tokenTypes, targets);
  }

  lemma {:induction false} SelectMembers(tokens: seq<Token>, tokenTypes: seq<string>, targets: seq<string>)
    ensures forall p :: p in Select(tokens, tokenTypes, targets)
              <==> exists t :: t in tokens && PositionOf(t, p, tokenTypes, targets)
  {
    if tokens != [] {
      SelectMembers(tokens[1..], tokenTypes, targets);
      SelectsOne(tokens[0], tokenTypes, targets);
      SelectsInOrder([tokens[0]], tokens[1..], tokenTypes, targets);
      assert [tokens[0]] + tokens[1..] == tokens;
      assert forall t :: t in tokens <==> t == tokens[0] || t in tokens[1..];
    }
  }

  lemma AddWraps(a: uint32, b: uint32)
    ensures Add(a, b) == if a + b < 0x1_0000_0000 then a + b else a + b - 0x1_0000_0000
  {
  }
}
