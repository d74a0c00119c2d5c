/** Cutting a text at a delimiter: a string, a character, or any of some characters. */
module Tokenizer {
  import opened Bytes
  import opened Concatenation

  /** Where the delimiter is first found; an empty one is found at once. */
  function Find(input: string, token: string): (pos: Option<nat>)
    ensures pos.Some? ==> pos.value + |token| <= |input|
  {
    if token <= input then Some(0)
    else if input == "" then None
    else
      match Find(input[1..], token)
      case None => None
      case Some(p) => Some(p + 1)
  }

  /** Where any of the characters is first found. */
  function FindAny(input: string, tokens: seq<char>): (pos: Option<nat>)
    ensures pos.Some? ==> pos.value < |input| && input[pos.value] in tokens
    ensures forall i | 0 <= i < |input| && (pos.Some? ==> i < pos.value) :: input[i] !in tokens
  {
    if input == "" then None
    else if input[0] in tokens then Some(0)
    else
      match FindAny(input[1..], tokens)
      case None => None
      case Some(p) => Some(p + 1)
  }

  function Keep(token: string, removeEmpty: bool): seq<string> {
    if removeEmpty && token == "" then [] else [token]
  }

  // ----- a string as delimiter -----

  function Split(input: string, token: string, removeEmpty: bool): seq<string>
    requires token != ""
    decreases |input|
  {
    if input == "" then []
    else
      match Find(input, token)
      case None => [input]
      case Some(pos) => Keep(input[..pos], removeEmpty) + Split(input[pos + |token|..], token, removeEmpty)
  }

  /** What the first delimiter cuts off, and what it leaves. */
  lemma SplitNext(input: string, token: string, removeEmpty: bool)
    requires token != "" && input != "" && Find(input, token).Some?
    ensures var pos := Find(input, token).value;
      Split(input, token, removeEmpty) == Keep(input[..pos], removeEmpty) + Split(input[pos + |token|..], token, removeEmpty)
  {
  }

  /** One turn of the loop: a token off the text. */
  method TakeToken(input: string, token: string, removeEmpty: bool, pos: nat, tokens: seq<string>)
    returns (rest: string, more: seq<string>)
    requires token != "" && input != "" && Find(input, token) == Some(pos)
    ensures |rest| < |input| && more + Split(rest, token, removeEmpty) == tokens + Split(input, token, removeEmpty)
  {
    var elem := input[..pos];
    rest := input[pos + |token|..];
    more := tokens + Keep(elem, removeEmpty);
    SplitNext(input, token, removeEmpty);
    Associates(tokens, Keep(elem, removeEmpty), Split(rest, token, removeEmpty));
  }

  /** The loop.  With an empty delimiter it takes nothing off a text that is not empty, and goes round for ever. */
  method TokenizeString(text: string, token: string, removeEmpty: bool) returns (result: Option<seq<string>>)
    ensures result.None? <==> token == "" && text != ""
    ensures token != "" ==> result == Some(Split(text, token, removeEmpty))
    ensures text == "" ==> result == Some([])
  {
    var input, tokens: seq<string> := text, [];
    ghost var goal := if token != "" then Split(text, token, removeEmpty) else [];
    while input != ""
      invariant token == "" ==> input == text && tokens == []
      invariant token != "" ==> tokens + Split(input, token, removeEmpty) == goal
      decreases |input|
    {
      var pos := Find(input, token);
      if pos.None? { return Some(tokens + [input]); }
      if token == "" { return None; }
      input, tokens := TakeToken(input, token, removeEmpty, pos.value, tokens);
    }
    assert tokens + [] == tokens;
    result := Some(tokens);
  }

  function Join(tokens: seq<string>, token: string): string {
    if tokens == [] then ""
    else if |tokens| == 1 then tokens[0]
    else tokens[0] + token + Join(tokens[1..], token)
  }

  lemma {:induction false} FoundThere(input: string, token: string)
    requires Find(input, token).Some?
    ensures var pos := Find(input, token).value; input == input[..pos] + token + input[pos + |token|..]
  {
    if !(token <= input) {
      FoundThere(input[1..], token);
      var p := Find(input[1..], token).value;
      Prepend(input[0], input[1..][..p], token, input[1..][p + |token|..], input);
    }
  }

  lemma Prepend(c: char, front: string, token: string, back: string, all: string)
    requires all == [c] + (front + token + back)
    ensures var pos := |front| + 1; all == all[..pos] + token + all[pos + |token|..]
  {
    assert all == ([c] + front) + token + back;
  }

  lemma JoinFirst(first: string, tokens: seq<string>, token: string)
    ensures Join([first] + tokens, token) == if tokens == [] then first else first + token + Join(tokens, token)
  {
    assert ([first] + tokens)[1..] == tokens;
  }

  lemma SplitFirst(input: string, token: string) returns (first: string, rest: string)
    requires token != "" && input != "" && Find(input, token).Some?
    ensures |rest| < |input| && input == first + token + rest
    ensures Split(input, token, false) == [first] + Split(rest, token, false)
  {
    var pos := Find(input, token).value;
    first, rest := input[..pos], input[pos + |token|..];
    FoundThere(input, token);
  }

  /** Joining the tokens gives the text back, up to one delimiter at the end. */
  lemma {:induction false} JoinedTokens(input: string, token: string)
    requires token != ""
    ensures var joined := Join(Split(input, token, false), token); input == joined || input == joined + token
    decreases |input|
  {
    if input != "" && Find(input, token).Some? {
      var first, rest := SplitFirst(input, token);
      var tokens := Split(rest, token, false);
      JoinedTokens(rest, token);
      JoinFirst(first, tokens, token);
      SplitIsEmpty(rest, token);
      if tokens == [] {
        assert first + token + "" == first + token;
      } else {
        Associates(first + token, Join(tokens, token), token);
      }
    }
  }

  lemma SplitIsEmpty(input: string, token: string)
    requires token != ""
    ensures Split(input, token, false) == [] <==> input == ""
  {
  }

  predicate StandsAt(input: string, token: string, i: nat) {
    i + |token| <= |input| && input[i..i + |token|] == token
  }

  /** Does the delimiter stand anywhere in the text? */
  ghost predicate Contains(input: string, token: string) {
    exists i: nat :: StandsAt(input, token, i)
  }

  lemma StandsBehind(input: string, token: string, i: nat)
    requires input != ""
    ensures StandsAt(input, token, i + 1) <==> StandsAt(input[1..], token, i)
    ensures StandsAt(input, token, 0) <==> token <= input
  {
    if i + 1 + |token| <= |input| { assert input[i + 1..i + 1 + |token|] == input[1..][i..i + |token|]; }
    if |token| <= |input| { assert input[0..|token|] == input[..|token|]; }
  }

  lemma {:induction false} FindIsFirst(input: string, token: string, i: nat)
    requires Find(input, token).None? || i < Find(input, token).value
    ensures !StandsAt(input, token, i)
  {
    if input == "" {
      assert token != "";
    } else {
      StandsBehind(input, token, i - (if i > 0 then 1 else 0));
      if i > 0 { FindIsFirst(input[1..], token, i - 1); }
    }
  }

  /** No token contains the delimiter. */
  lemma {:induction false} TokensAreFree(input: string, token: string, removeEmpty: bool, t: string)
    requires token != "" && t in Split(input, token, removeEmpty)
    ensures !Contains(t, token)
    decreases |input|
  {
    var found := Find(input, token);
    if found.Some? && t in Split(input[found.value + |token|..], token, removeEmpty) {
      TokensAreFree(input[found.value + |token|..], token, removeEmpty, t);
    } else {
      assert t == if found.Some? then input[..found.value] else input;
      forall i: nat ensures !StandsAt(t, token, i) {
        if i + |token| <= |t| {
          FindIsFirst(input, token, i);
          assert t[i..i + |token|] == input[i..i + |token|];
        }
      }
    }
  }

  /** The tokens without the empty ones. */
  function NotEmpty(tokens: seq<string>): seq<string> {
    if tokens == [] then []
    else if tokens[0] == "" then NotEmpty(tokens[1..])
    else [tokens[0]] + NotEmpty(tokens[1..])
  }

  lemma NotEmptyFirst(first: string, tokens: seq<string>)
    ensures NotEmpty([first] + tokens) == Keep(first, true) + NotEmpty(tokens)
  {
    assert ([first] + tokens)[1..] == tokens;
  }

  /** Leaving out empty tokens on the way is filtering them out afterwards. */
  lemma {:induction false} RemovingIsFiltering(input: string, token: string)
    requires token != ""
    ensures Split(input, token, true) == NotEmpty(Split(input, token, false))
    decreases |input|
  {
    if input != "" {
      match Find(input, token)
      case None => assert [input][1..] == [];
      case Some(pos) =>
        var first, rest := input[..pos], input[pos + |token|..];
        assert Split(input, token, true) == Keep(first, true) + Split(rest, token, true) by { SplitNext(input, token, true); }
        assert Split(input, token, false) == [first] + Split(rest, token, false) by { SplitNext(input, token, false); }
        RemovingIsFiltering(rest, token);
        NotEmptyFirst(first, Split(rest, token, false));
    }
  }

  // ----- characters as delimiters -----

  function SplitAny(input: string, tokens: seq<char>, removeEmpty: bool): seq<string>
    decreases |input|
  {
    if input == "" then []
    else
      match FindAny(input, tokens)
      case None => [input]
      case Some(pos) => Keep(input[..pos], removeEmpty) + SplitAny(input[pos + 1..], tokens, removeEmpty)
  }

  /** The inner loop: the earliest position over all the characters. */
  method Earliest(input: string, tokens: seq<char>) returns (position: Option<nat>)
    ensures position == FindAny(input, tokens)
  {
    position := None;
    for k := 0 to |tokens|
      invariant position == FindAny(input, tokens[..k])
    {
      var pos := FindAny(input, [tokens[k]]);
      AddCharacter(input, tokens[..k], tokens[k]);
      assert tokens[..k + 1] == tokens[..k] + [tokens[k]];
      if pos.Some? && (position.None? || pos.value < position.value) {
        position := pos;
      }
    }
    assert tokens[..|tokens|] == tokens;
  }

  lemma {:induction false} AddCharacter(input: string, tokens: seq<char>, c: char)
    ensures var a, b := FindAny(input, tokens), FindAny(input, [c]);
      FindAny(input, tokens + [c]) == if b.Some? && (a.None? || b.value < a.value) then b else a
  {
    if input != "" && input[0] !in tokens && input[0] != c { AddCharacter(input[1..], tokens, c); }
  }

  method TokenizeAny(text: string, tokens: seq<char>, removeEmpty: bool) returns (result: seq<string>)
    ensures result == SplitAny(text, tokens, removeEmpty)
  {
    var input := text;
    ghost var goal := SplitAny(text, tokens, removeEmpty);
    result := [];
    while input != ""
      invariant result + SplitAny(input, tokens, removeEmpty) == goal
      decreases |input|
    {
      var position := Earliest(input, tokens);
      if position.None? {
        result := result + [input];
        return;
      }
      var elem, rest := input[..position.value], input[position.value + 1..];
      assert SplitAny(input, tokens, removeEmpty) == Keep(elem, removeEmpty) + SplitAny(rest, tokens, removeEmpty);
      Associates(result, Keep(elem, removeEmpty), SplitAny(rest, tokens, removeEmpty));
      if !removeEmpty || position.value > 0 {
        result := result + [elem];
      } else {
        assert result + [] == result;
      }
      input := rest;
    }
  }

  /** The overload for one character. */
  method TokenizeChar(text: string, token: char, removeEmpty: bool) returns (result: seq<string>)
    ensures result == SplitAny(text, [token], removeEmpty)
  {
    var input := text;
    ghost var goal := SplitAny(text, [token], removeEmpty);
    result := [];
    while input != ""
      invariant result + SplitAny(input, [token], removeEmpty) == goal
      decreases |input|
    {
      var pos := FindAny(input, [token]);
      if pos.None? {
        if !removeEmpty || input != "" { result := result + [input]; }
        return;
      }
      var elem, rest := input[..pos.value], input[pos.value + 1..];
      Associates(result, Keep(elem, removeEmpty), SplitAny(rest, [token], removeEmpty));
      if !removeEmpty || elem != "" {
        result := result + [elem];
      } else {
        assert result + [] == result;
      }
      input := rest;
    }
  }

  /** No token contains a delimiter, and leaving out empty tokens is filtering. */
  lemma {:induction false} AnyTokensAreFree(input: string, tokens: seq<char>, removeEmpty: bool)
    ensures forall t, c | t in SplitAny(input, tokens, removeEmpty) && c in t :: c !in tokens
    ensures removeEmpty ==> SplitAny(input, tokens, true) == NotEmpty(SplitAny(input, tokens, false))
    decreases |input|
  {
    if input != "" {
      match FindAny(input, tokens)
      case None => assert [input][1..] == [];
      case Some(pos) =>
        var rest := input[pos + 1..];
        AnyTokensAreFree(rest, tokens, removeEmpty);
        NotEmptyFirst(input[..pos], SplitAny(rest, tokens, false));
    }
  }

  /** One character is a string of one character. */
  lemma {:induction false} OneCharacter(input: string, c: char)
    ensures Find(input, [c]) == FindAny(input, [c])
  {
    if input != "" && input[0] != c {
      assert !([c] <= input);
      OneCharacter(input[1..], c);
    }
  }

  lemma {:induction false} CharacterIsString(input: string, c: char, removeEmpty: bool)
    ensures SplitAny(input, [c], removeEmpty) == Split(input, [c], removeEmpty)
    decreases |input|
  {
    OneCharacter(input, c);
    if input != "" && FindAny(input, [c]).Some? { CharacterIsString(input[FindAny(input, [c]).value + 1..], c, removeEmpty); }
  }

  ghost predicate FreeParts(parts: seq<string>, c: char) {
    forall p | p in parts :: c !in p
  }

  lemma {:induction false} FindBehind(p: string, c: char, rest: string)
    requires c !in p
    ensures FindAny(p + [c] + rest, [c]) == Some(|p|) && FindAny(p, [c]) == None
  {
    var all := p + [c] + rest;
    assert all[|p|] == c && forall i | 0 <= i < |p| :: all[i] == p[i] && p[i] in p;
    assert forall i | 0 <= i < |p| :: p[i] != c;
  }

  /** Tokenizing undoes joining exactly if there is nothing to join or the last part is not empty. */
  lemma {:induction false} TokenizingUndoesJoining(parts: seq<string>, c: char)
    requires FreeParts(parts, c)
    ensures SplitAny(Join(parts, [c]), [c], false) == parts <==> parts == [] || parts[|parts| - 1] != ""
    decreases |parts|
  {
    if |parts| == 1 {
      assert parts[0] in parts;
      FindBehind(parts[0], c, "");
      assert [parts[0]] == parts;
    } else if |parts| > 1 {
      var first, rest := parts[0], parts[1..];
      assert first in parts && rest[|rest| - 1] == parts[|parts| - 1];
      var joined := Join(rest, [c]);
      FindBehind(first, c, joined);
      var all := first + [c] + joined;
      assert all[..|first|] == first && all[|first| + 1..] == joined;
      assert SplitAny(all, [c], false) == [first] + SplitAny(joined, [c], false);
      TokenizingUndoesJoining(rest, c);
      assert parts == [first] + rest;
      assert ([first] + SplitAny(joined, [c], false))[1..] == SplitAny(joined, [c], false);
    }
  }

  lemma {:induction false} JoinEndsLikeLast(tokens: seq<string>, token: string)
    requires tokens != [] && tokens[|tokens| - 1] != ""
    ensures var joined, last := Join(tokens, token), tokens[|tokens| - 1];
      joined != "" && joined[|joined| - 1] == last[|last| - 1]
    decreases |tokens|
  {
    if |tokens| > 1 { JoinEndsLikeLast(tokens[1..], token); }
  }

  /** Joining what splitting at a character gives is the text, less one delimiter exactly if it ends with one. */
  lemma CharacterTokensJoin(input: string, c: char)
    ensures var joined := Join(SplitAny(input, [c], false), [c]);
      if input != "" && input[|input| - 1] == c then input == joined + [c] else input == joined
  {
    var tokens := SplitAny(input, [c], false);
    var joined := Join(tokens, [c]);
    CharacterIsString(input, c, false);
    JoinedTokens(input, [c]);
    if input == joined {
      AnyTokensAreFree(input, [c], false);
      assert FreeParts(tokens, c);
      TokenizingUndoesJoining(tokens, c);
      if tokens != [] {
        var last := tokens[|tokens| - 1];
        JoinEndsLikeLast(tokens, [c]);
        assert last in tokens && last[|last| - 1] in last;
      }
    }
  }
}
