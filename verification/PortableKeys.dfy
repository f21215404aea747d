/** Key sequences such as `ctrl+shift+a enter`: tokens, aliases, canonical names. */
module PortableKeys {
  import opened Common
  import opened Handles

  /** Unicode White_Space. */
  predicate IsSpace(c: char) {
    var code := c as int;
    || 0x9 <= code <= 0xD || code == 0x20 || code == 0x85 || code == 0xA0 || code == 0x1680
    || 0x2000 <= code <= 0x200A || code == 0x2028 || code == 0x2029 || code == 0x202F
    || code == 0x205F || code == 0x3000
  }

  predicate IsPlus(c: char) {
    c == '+'
  }

  /** The pieces between separators, empty ones included. */
  function Split(s: string, separates: char -> bool): (pieces: seq<string>)
    ensures pieces != []
  {
    if s == [] then [[]]
    else
      var rest := Split(s[1..], separates);
      if separates(s[0]) then [[]] + rest else [[s[0]] + rest[0]] + rest[1..]
  }

  function NonEmpty(pieces: seq<string>): seq<string> {
    if pieces == [] then []
    else (if pieces[0] == [] then [] else [pieces[0]]) + NonEmpty(pieces[1..])
  }

  function Tokens(s: string): seq<string> {
    NonEmpty(Split(s, IsSpace))
  }

  function Join(pieces: seq<string>, separator: char): string {
    if pieces == [] then []
    else if |pieces| == 1 then pieces[0]
    else pieces[0] + [separator] + Join(pieces[1..], separator)
  }

  function Lower(s: string): string {
    seq(|s|, i requires 0 <= i < |s| =>
      if 'A' <= s[i] <= 'Z' then s[i] - 'A' + 'a' else s[i])
  }

  function Canonical(part: string): string {
    var name := Lower(part);
    if name == "control" then "ctrl" else if name == "win" || name == "cmd" then "meta" else name
  }

  const MODIFIERS := ["ctrl", "alt", "shift", "meta"]

  const NAMED := [
    "enter", "return", "escape", "esc", "tab", "space", "backspace", "delete", "del", "insert",
    "up", "down", "left", "right", "home", "end", "pageup", "pagedown"]

  predicate IsFunctionKey(key: string) {
    |key| > 1 && key[0] == 'f' && Digits(key[1..]).Some? && 1 <= Digits(key[1..]).value <= 24
  }

  predicate IsCharacter(key: string) {
    |key| == 1 && ('a' <= key[0] <= 'z' || 'A' <= key[0] <= 'Z' || IsDigit(key[0]))
  }

  predicate IsSupported(key: string) {
    IsFunctionKey(key) || IsCharacter(key) || key in NAMED
  }

  predicate AreModifiers(parts: seq<string>) {
    && (forall p :: p in parts ==> p in MODIFIERS)
    && (forall i, j :: 0 <= i < j < |parts| ==> parts[i] != parts[j])
  }

  /** The canonical names of one token, the main key last. */
  function Parts(token: string): (parts: seq<string>)
    ensures parts != []
  {
    var pieces := Split(token, IsPlus);
    seq(|pieces|, i requires 0 <= i < |pieces| => Canonical(pieces[i]))
  }

  predicate IsChord(parts: seq<string>) {
    parts != [] && IsSupported(parts[|parts| - 1]) && AreModifiers(parts[..|parts| - 1])
  }

  function ParseTokens(tokens: seq<string>): Option<seq<seq<string>>> {
    if tokens == [] then Some([])
    else
      var parts := Parts(tokens[0]);
      if !IsChord(parts) then None
      else
        match ParseTokens(tokens[1..])
        case None => None
        case Some(rest) => Some([parts] + rest)
  }

  /** The chords of a sequence; `None` is a refusal. */
  function ParseKeys(spec: string): Option<seq<seq<string>>> {
    if Tokens(spec) == [] then None else ParseTokens(Tokens(spec))
  }

  function Print(chords: seq<seq<string>>): string {
    Join(seq(|chords|, i requires 0 <= i < |chords| => Join(chords[i], '+')), ' ')
  }

  /** One malformed token anywhere refuses the whole sequence. */
  lemma {:induction false} EveryTokenCounts(tokens: seq<string>)
    ensures ParseTokens(tokens).Some? <==> forall t :: t in tokens ==> IsChord(Parts(t))
    ensures ParseTokens(tokens).Some? ==>
      var chords := ParseTokens(tokens).value;
      |chords| == |tokens| && forall i :: 0 <= i < |tokens| ==> chords[i] == Parts(tokens[i])
  {
    if tokens != [] {
      EveryTokenCounts(tokens[1..]);
      assert tokens == [tokens[0]] + tokens[1..];
    }
  }

  predicate Lowered(s: string) {
    s != [] && forall c :: c in s ==> 'a' <= c <= 'z' || IsDigit(c)
  }

  lemma {:induction false} DigitsAreDigits(s: string)
    requires Digits(s).Some?
    ensures forall c :: c in s ==> IsDigit(c)
  {
    if s != [] {
      DigitsAreDigits(s[..|s| - 1]);
      assert s == s[..|s| - 1] + [s[|s| - 1]];
    }
  }

  lemma NamesAreLowered(i: nat)
    ensures i < |NAMED| ==> Lowered(NAMED[i])
    ensures i < |MODIFIERS| ==> Lowered(MODIFIERS[i])
  {
  }

  lemma LoweredIsCanonical(p: string)
    requires Lowered(p) && p != "control" && p != "win" && p != "cmd"
    ensures Canonical(p) == p
  {
    assert forall i :: 0 <= i < |p| ==> p[i] in p;
    assert Lower(p) == p;
  }

  lemma SupportedIsLowered(part: string)
    requires IsSupported(Canonical(part)) || Canonical(part) in MODIFIERS
    ensures Lowered(Canonical(part)) && Canonical(Canonical(part)) == Canonical(part)
  {
    var key := Canonical(part);
    if key in MODIFIERS {
      var i :| 0 <= i < |MODIFIERS| && MODIFIERS[i] == key;
      NamesAreLowered(i);
    } else if key in NAMED {
      var i :| 0 <= i < |NAMED| && NAMED[i] == key;
      NamesAreLowered(i);
    } else if IsFunctionKey(key) {
      DigitsAreDigits(key[1..]);
      assert key == [key[0]] + key[1..];
    } else {
      assert key == [key[0]];
    }
    LoweredIsCanonical(key);
  }

  /** The names of a chord are in canonical form. */
  lemma ChordIsLowered(token: string)
    requires IsChord(Parts(token))
    ensures forall i :: 0 <= i < |Parts(token)| ==>
      Lowered(Parts(token)[i]) && Canonical(Parts(token)[i]) == Parts(token)[i]
  {
    var parts, pieces := Parts(token), Split(token, IsPlus);
    forall i | 0 <= i < |parts| ensures Lowered(parts[i]) && Canonical(parts[i]) == parts[i] {
      if i < |parts| - 1 {
        assert parts[i] in parts[..|parts| - 1];
      }
      SupportedIsLowered(pieces[i]);
    }
  }

  predicate Separated(piece: string, separates: char -> bool) {
    forall c :: c in piece ==> !separates(c)
  }

  lemma {:induction false} SplitPiece(piece: string, separator: char, rest: string, separates: char -> bool)
    requires Separated(piece, separates) && separates(separator)
    ensures Split(piece, separates) == [piece]
    ensures Split(piece + [separator] + rest, separates) == [piece] + Split(rest, separates)
  {
    var text := piece + [separator] + rest;
    if piece == [] {
      assert text[1..] == rest;
    } else {
      SplitPiece(piece[1..], separator, rest, separates);
      assert text[1..] == piece[1..] + [separator] + rest;
      assert piece == [piece[0]] + piece[1..] && piece[0] in piece;
    }
  }

  lemma {:induction false} SplitJoin(pieces: seq<string>, separator: char, separates: char -> bool)
    requires pieces != [] && separates(separator)
    requires forall p :: p in pieces ==> Separated(p, separates)
    ensures Split(Join(pieces, separator), separates) == pieces
  {
    assert pieces[0] in pieces && pieces == [pieces[0]] + pieces[1..];
    if |pieces| == 1 {
      SplitPiece(pieces[0], separator, [], separates);
    } else {
      SplitJoin(pieces[1..], separator, separates);
      SplitPiece(pieces[0], separator, Join(pieces[1..], separator), separates);
    }
  }

  lemma {:induction false} NonEmptyKeeps(pieces: seq<string>)
    requires forall i :: 0 <= i < |pieces| ==> |pieces[i]| > 0
    ensures NonEmpty(pieces) == pieces
  {
    if pieces != [] {
      assert pieces == [pieces[0]] + pieces[1..];
      NonEmptyKeeps(pieces[1..]);
    }
  }

  lemma {:induction false} CharOfJoin(pieces: seq<string>, separator: char)
    requires forall p :: p in pieces ==> Lowered(p)
    ensures forall c :: c in Join(pieces, separator) ==> c == separator || 'a' <= c <= 'z' || IsDigit(c)
    ensures pieces != [] ==> Join(pieces, separator) != []
  {
    if pieces != [] {
      assert pieces[0] in pieces;
      CharOfJoin(pieces[1..], separator);
    }
  }

  /** Writing a chord back with `+` gives a token of the same chord. */
  lemma PrintedChord(token: string)
    requires IsChord(Parts(token))
    ensures Parts(Join(Parts(token), '+')) == Parts(token)
    ensures Join(Parts(token), '+') != [] && Separated(Join(Parts(token), '+'), IsSpace)
  {
    var parts := Parts(token);
    ChordIsLowered(token);
    CharOfJoin(parts, '+');
    SplitJoin(parts, '+', IsPlus);
  }

  lemma PrintedTokens(printed: seq<string>)
    requires printed != [] && forall i :: 0 <= i < |printed| ==> |printed[i]| > 0 && Separated(printed[i], IsSpace)
    ensures Tokens(Join(printed, ' ')) == printed
  {
    SplitJoin(printed, ' ', IsSpace);
    NonEmptyKeeps(printed);
  }

  lemma {:induction false} ParsesTo(tokens: seq<string>, chords: seq<seq<string>>)
    requires |tokens| == |chords|
    requires forall i :: 0 <= i < |tokens| ==> IsChord(chords[i]) && Parts(tokens[i]) == chords[i]
    ensures ParseTokens(tokens) == Some(chords)
  {
    if tokens != [] {
      ParsesTo(tokens[1..], chords[1..]);
      assert chords == [chords[0]] + chords[1..];
    }
  }

  /** Parsed keys are canonical: written out and parsed again they are the same. */
  lemma CanonicalKeys(spec: string)
    requires ParseKeys(spec).Some?
    ensures ParseKeys(Print(ParseKeys(spec).value)) == ParseKeys(spec)
  {
    var tokens, chords := Tokens(spec), ParseKeys(spec).value;
    EveryTokenCounts(tokens);
    var printed := seq(|chords|, i requires 0 <= i < |chords| => Join(chords[i], '+'));
    forall i | 0 <= i < |chords|
      ensures IsChord(chords[i]) && Parts(printed[i]) == chords[i]
      ensures |printed[i]| > 0 && Separated(printed[i], IsSpace)
    {
      assert tokens[i] in tokens;
      PrintedChord(tokens[i]);
    }
    PrintedTokens(printed);
    ParsesTo(printed, chords);
  }
}
