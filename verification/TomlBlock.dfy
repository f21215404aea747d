/**
 The managed block of a TOML configuration: each product owns one block between two marker lines,
 and everything else in the file belongs to the user. Parsing is a predicate of the caller.
 */
module TomlBlock {
  import opened Common
  import opened Strings

  datatype Product = Aevra | AevraBrowser

  function Name(p: Product): string {
    if p.Aevra? then "aevra" else "aevra-browser"
  }

  function Begin(p: Product): string {
    "# BEGIN " + Name(p) + " managed MCP\n"
  }

  function End(p: Product): string {
    "# END " + Name(p) + " managed MCP\n"
  }

  /** The newline that has to come before a block. */
  function Separator(s: string): string {
    if s != "" && !EndsWith(s, '\n') then "\n" else ""
  }

  function Wrapped(p: Product, block: string): string {
    Begin(p) + block + End(p)
  }

  /** Text without its leftmost block; `None` when the markers do not pair up. */
  function Cut(text: string, begin: string, end: string): Option<string> {
    var from, to := IndexOf(text, begin, 0), IndexOf(text, end, 0);
    if from.Some? != to.Some? || (from.Some? && to.value < from.value) then None
    else if from.None? then Some(text)
    else Some(text[..from.value] + text[to.value + |end|..])
  }

  function Cleared(normalized: string, p: Product): Option<string> {
    Cut(normalized, Begin(p), End(p))
  }

  /** An edit installs a block, or removes it when there is none. */
  datatype Edit = Edit(product: Product, block: Option<string>)

  datatype Edited = Ok(text: string) | Unparsable | Conflict

  /** The edit apart from the parse checks; `None` is a marker conflict. */
  function EditText(text: string, e: Edit): Option<string> {
    var cleared := Cleared(Fold(text), e.product);
    if cleared.None? || e.block.None? then cleared
    else
      var rest := cleared.value;
      Some(rest + Separator(rest) + Wrapped(e.product, e.block.value))
  }

  /** The file is parsed before the edit and after it. */
  function EditConfig(text: string, e: Edit, parses: string -> bool): Edited {
    if !parses(text) then Unparsable
    else
      match EditText(text, e)
      case None => Conflict
      case Some(result) => if parses(result) then Ok(result) else Unparsable
  }

  // The simple form: the user's text followed by the installed blocks, oldest first.

  datatype Block = Block(product: Product, text: string)

  datatype Managed = Managed(base: string, blocks: seq<Block>)

  function Blocks(blocks: seq<Block>): string {
    if blocks == [] then ""
    else Wrapped(blocks[0].product, blocks[0].text) + Blocks(blocks[1..])
  }

  function Render(s: Managed): string {
    s.base + Blocks(s.blocks)
  }

  function Drop(blocks: seq<Block>, p: Product): seq<Block> {
    if blocks == [] then []
    else if blocks[0].product == p then blocks[1..]
    else [blocks[0]] + Drop(blocks[1..], p)
  }

  function Lookup(blocks: seq<Block>, p: Product): Option<string> {
    if blocks == [] then None
    else if blocks[0].product == p then Some(blocks[0].text)
    else Lookup(blocks[1..], p)
  }

  function After(s: Managed, e: Edit): Managed {
    var rest := Drop(s.blocks, e.product);
    match e.block
    case None => Managed(s.base, rest)
    case Some(block) => Managed(Closed(s.base), rest + [Block(e.product, block)])
  }

  predicate Unmarked(s: string, p: Product) {
    !Has(s, Begin(p)) && !Has(s, End(p))
  }

  predicate Unmanaged(s: string) {
    Unmarked(s, Aevra) && Unmarked(s, AevraBrowser)
  }

  /** What the TOML printer gives: no CR and no line that is a marker. */
  predicate BlockOk(block: string) {
    '\r' !in block && Unmanaged(block)
  }

  function Closed(s: string): string {
    s + Separator(s)
  }

  /** The user's text, closed by a newline, is normalised and has no marker line. */
  predicate BaseOk(base: string) {
    !HasCrlf(Closed(base)) && Unmanaged(Closed(base))
  }

  ghost predicate Valid(s: Managed) {
    && BaseOk(s.base)
    && (s.blocks != [] ==> Separator(s.base) == "")
    && (forall b :: b in s.blocks ==> BlockOk(b.text))
    && (forall i, j :: 0 <= i < j < |s.blocks| ==> s.blocks[i].product != s.blocks[j].product)
  }

  // Markers and seams.

  /** All that the proofs use of a marker: `#` starts it and only a newline ends it. */
  ghost predicate MarkerShape(m: string) {
    && |m| > 1 && m[0] == '#' && m[|m| - 1] == '\n'
    && (forall k :: 0 < k < |m| ==> m[k] != '#')
    && (forall k :: 0 <= k < |m| - 1 ==> m[k] != '\n')
  }

  ghost predicate Plain(s: string) {
    forall k :: 0 <= k < |s| ==> s[k] != '#' && s[k] != '\n' && s[k] != '\r'
  }

  lemma PlainJoin(a: string, b: string, m: string)
    requires Plain(a) && Plain(b) && m == "#" + a + b + "\n"
    ensures MarkerShape(m) && '\r' !in m
  {
    assert forall k :: 0 < k < |m| - 1 ==> m[k] == (a + b)[k - 1];
  }

  lemma MarkerIsShaped(kind: string, name: string, m: string)
    requires kind == " BEGIN " || kind == " END "
    requires Plain(name) && m == "#" + kind + (name + " managed MCP") + "\n"
    ensures MarkerShape(m) && '\r' !in m
  {
    PlainJoin(kind, name + " managed MCP", m);
  }

  lemma MarkersHaveShape(p: Product)
    ensures MarkerShape(Begin(p)) && MarkerShape(End(p))
    ensures '\r' !in Begin(p) && '\r' !in End(p)
  {
    assert Begin(p) == "#" + " BEGIN " + (Name(p) + " managed MCP") + "\n";
    assert End(p) == "#" + " END " + (Name(p) + " managed MCP") + "\n";
    MarkerIsShaped(" BEGIN ", Name(p), Begin(p));
    MarkerIsShaped(" END ", Name(p), End(p));
  }

  lemma MarkersDiffer(p: Product, q: Product)
    ensures Begin(p) != End(q)
    ensures p != q ==> Begin(p) != Begin(q) && End(p) != End(q)
  {
    assert Begin(p)[2] == 'B' && End(q)[2] == 'E';
    if p != q {
      assert |Begin(p)| != |Begin(q)| && |End(p)| != |End(q)|;
    }
  }

  lemma Hit(s: string, sub: string, i: nat)
    requires OccursAt(s, sub, i)
    ensures Has(s, sub)
  {
    IndexIsAnOccurrence(s, sub, 0);
  }

  lemma CharOfOccurrence(s: string, sub: string, i: nat, k: nat)
    requires OccursAt(s, sub, i) && k < |sub|
    ensures s[i + k] == sub[k]
  {
    assert s[i..i + |sub|][k] == s[i + k];
  }

  /** A marker cannot lie across a line end or the start of another marker. */
  lemma NoStraddle(x: string, y: string, m: string, i: nat)
    requires MarkerShape(m) && (EndsWith(x, '\n') || StartsWith(y, '#'))
    requires i < |x| < i + |m|
    ensures !OccursAt(x + y, m, i)
  {
    if OccursAt(x + y, m, i) {
      if EndsWith(x, '\n') {
        CharOfOccurrence(x + y, m, i, |x| - 1 - i);
      } else {
        CharOfOccurrence(x + y, m, i, |x| - i);
      }
    }
  }

  predicate SafeSeam(x: string, y: string) {
    x == "" || y == "" || EndsWith(x, '\n') || StartsWith(y, '#')
  }

  lemma OccursInJoin(x: string, y: string, m: string, i: nat)
    requires MarkerShape(m) && SafeSeam(x, y)
    ensures OccursAt(x + y, m, i) <==> OccursAt(x, m, i) || (i >= |x| && OccursAt(y, m, i - |x|))
  {
    if i + |m| <= |x| {
      OccursInPrefix(x, y, m, i);
    } else if |x| <= i {
      OccursInSuffix(x, y, m, i - |x|);
    } else if y != "" {
      NoStraddle(x, y, m, i);
    }
  }

  /** So joined texts have a marker if one of them has it ... */
  lemma HasInJoin(x: string, y: string, m: string)
    requires MarkerShape(m) && SafeSeam(x, y)
    ensures Has(x + y, m) <==> Has(x, m) || Has(y, m)
  {
    IndexIsAnOccurrence(x, m, 0);
    IndexIsAnOccurrence(y, m, 0);
    IndexIsAnOccurrence(x + y, m, 0);
    if Has(x + y, m) {
      OccursInJoin(x, y, m, IndexOf(x + y, m, 0).value);
    } else if Has(x, m) {
      OccursInJoin(x, y, m, IndexOf(x, m, 0).value);
    } else if Has(y, m) {
      OccursInJoin(x, y, m, |x| + IndexOf(y, m, 0).value);
    }
  }

  /** ... and a marker that follows a text without it is the leftmost. */
  lemma IndexAfter(u: string, m: string, v: string)
    requires MarkerShape(m) && !Has(u, m)
    ensures IndexOf(u + (m + v), m, 0) == Some(|u|)
  {
    var text := u + (m + v);
    assert OccursAt(text, m, |u|);
    IndexIsAnOccurrence(u, m, 0);
    forall i: nat | i < |u| ensures !OccursAt(text, m, i) {
      OccursInJoin(u, m + v, m, i);
    }
    IndexIsLeftmost(text, m, 0, |u|);
  }

  lemma OccursInSuffix(x: string, y: string, m: string, i: nat)
    ensures OccursAt(x + y, m, |x| + i) == OccursAt(y, m, i)
  {
    if i + |m| <= |y| {
      assert (x + y)[|x| + i..|x| + i + |m|] == y[i..i + |m|];
    }
  }

  /** A marker occurs in a marker only if they are the same. */
  lemma MarkerInMarker(m: string, n: string)
    requires MarkerShape(m) && MarkerShape(n)
    ensures m == n ==> IndexOf(n, m, 0) == Some(0)
    ensures m != n ==> !Has(n, m)
  {
    IndexIsAnOccurrence(n, m, 0);
    if m == n {
      assert OccursAt(n, m, 0);
    }
  }

  /** A clean text, another marker and a clean block have no marker together. */
  lemma NotInBlock(u: string, b: string, block: string, e: string)
    requires MarkerShape(b) && MarkerShape(e) && b != e && !Has(u, e) && !Has(block, e)
    ensures !Has((u + b) + block, e)
  {
    MarkerInMarker(e, b);
    HasInJoin(u, b, e);
    HasInJoin(u + b, block, e);
  }

  lemma SamePlace(u: string, b: string, block: string, e: string, v: string)
    ensures (u + (b + block + e)) + v == u + (b + (block + e + v))
    ensures (u + (b + block + e)) + v == ((u + b) + block) + (e + v)
  {
  }

  /** Clearing takes out exactly the block between the leftmost markers. */
  lemma BlockIsCut(u: string, b: string, block: string, e: string, v: string)
    requires MarkerShape(b) && MarkerShape(e) && b != e
    requires !Has(u, b) && !Has(u, e) && !Has(block, e)
    ensures Cut((u + (b + block + e)) + v, b, e) == Some(u + v)
  {
    var head := (u + b) + block;
    SamePlace(u, b, block, e, v);
    IndexAfter(u, b, block + e + v);
    NotInBlock(u, b, block, e);
    IndexAfter(head, e, v);
    CutApart(u, head, e, v, head + (e + v));
  }

  lemma CutApart(u: string, head: string, e: string, v: string, n: string)
    requires n == head + (e + v) && u <= head
    ensures n[..|u|] == u && n[|head| + |e|..] == v
  {
  }

  /** A block between other markers holds no marker that its text does not hold. */
  lemma NoneInBlock(u: string, b: string, block: string, e: string, m: string)
    requires MarkerShape(b) && MarkerShape(e) && MarkerShape(m) && m != b && m != e
    requires !Has(u, m) && !Has(block, m)
    ensures !Has(u + (b + block + e), m)
  {
    NotInBlock(u, b, block, m);
    MarkerInMarker(m, e);
    HasInJoin((u + b) + block, e, m);
    assert u + (b + block + e) == ((u + b) + block) + e;
  }

  lemma BlockIsCleared(u: string, p: Product, block: string, v: string)
    requires Unmarked(u, p) && Unmarked(block, p)
    ensures Cleared((u + Wrapped(p, block)) + v, p) == Some(u + v)
  {
    MarkersHaveShape(p);
    MarkersDiffer(p, p);
    BlockIsCut(u, Begin(p), block, End(p), v);
  }

  /** The block of another product holds no marker of this one. */
  lemma OtherBlockIsUnmarked(u: string, q: Product, block: string, p: Product)
    requires p != q && Unmarked(u, p) && Unmarked(block, p)
    ensures Unmarked(u + Wrapped(q, block), p)
  {
    MarkersHaveShape(p);
    MarkersHaveShape(q);
    MarkersDiffer(p, q);
    MarkersDiffer(q, p);
    NoneInBlock(u, Begin(q), block, End(q), Begin(p));
    NoneInBlock(u, Begin(q), block, End(q), End(p));
  }

  /** Clearing the text of a simple form drops the product's block from its list. */
  lemma {:induction false} ClearedDrops(u: string, blocks: seq<Block>, p: Product)
    requires Unmarked(u, p) && forall b :: b in blocks ==> BlockOk(b.text)
    ensures Cleared(u + Blocks(blocks), p) == Some(u + Blocks(Drop(blocks, p)))
    decreases |blocks|
  {
    if blocks == [] {
      assert u + Blocks(blocks) == u;
    } else {
      var first, rest := blocks[0], blocks[1..];
      var wrapped := Wrapped(first.product, first.text);
      assert first in blocks;
      Associative(u, wrapped, Blocks(rest));
      if first.product == p {
        BlockIsCleared(u, p, first.text, Blocks(rest));
      } else {
        OtherBlockIsUnmarked(u, first.product, first.text, p);
        ClearedDrops(u + wrapped, rest, p);
        Associative(u, wrapped, Blocks(Drop(rest, p)));
        BlocksCons(first, Drop(rest, p));
      }
    }
  }

  lemma BlocksCons(first: Block, rest: seq<Block>)
    ensures Blocks([first] + rest) == Wrapped(first.product, first.text) + Blocks(rest)
  {
    assert ([first] + rest)[1..] == rest;
  }

  lemma {:induction false} BlocksHaveNoReturn(blocks: seq<Block>)
    requires forall b :: b in blocks ==> BlockOk(b.text)
    ensures '\r' !in Blocks(blocks)
    ensures blocks != [] ==> StartsWith(Blocks(blocks), '#') && EndsWith(Blocks(blocks), '\n')
    decreases |blocks|
  {
    if blocks != [] {
      BlocksHaveNoReturn(blocks[1..]);
      MarkersHaveShape(blocks[0].product);
      assert blocks[0] in blocks;
    }
  }

  lemma HasInPrefix(x: string, y: string, m: string)
    requires !Has(x + y, m)
    ensures !Has(x, m)
  {
    if Has(x, m) {
      IndexInPrefix(x, y, m);
    }
  }

  /** The text of a valid simple form is normalised. */
  lemma RenderIsFolded(s: Managed)
    requires Valid(s)
    ensures Fold(Render(s)) == Render(s)
  {
    BlocksHaveNoReturn(s.blocks);
    CrlfInClosed(s.base);
    FoldFixed(s.base);
    NoReturnNoCrlf(Blocks(s.blocks));
    FoldFixed(Blocks(s.blocks));
    FoldConcat(s.base, Blocks(s.blocks));
  }

  lemma CrlfInClosed(s: string)
    ensures HasCrlf(Closed(s)) <==> HasCrlf(s) || EndsWith(s, '\r')
  {
    if Separator(s) == "" {
      assert Closed(s) == s;
    } else {
      CrlfBeforeNewline(s);
    }
  }

  lemma {:induction false} BlocksAppend(blocks: seq<Block>, last: Block)
    ensures Blocks(blocks + [last]) == Blocks(blocks) + Wrapped(last.product, last.text)
    decreases |blocks|
  {
    var wrapped := Wrapped(last.product, last.text);
    if blocks == [] {
      BlocksCons(last, []);
      assert [] + [last] == [last] + [];
      assert wrapped + "" == "" + wrapped;
    } else {
      BlocksAppend(blocks[1..], last);
      BlocksCons(blocks[0], blocks[1..] + [last]);
      assert blocks + [last] == [blocks[0]] + (blocks[1..] + [last]);
      Associative(Wrapped(blocks[0].product, blocks[0].text), Blocks(blocks[1..]), wrapped);
    }
  }

  lemma {:induction false} DropDrops(blocks: seq<Block>, p: Product)
    requires forall i, j :: 0 <= i < j < |blocks| ==> blocks[i].product != blocks[j].product
    ensures forall b :: b in Drop(blocks, p) <==> b in blocks && b.product != p
    ensures forall i, j :: 0 <= i < j < |Drop(blocks, p)| ==>
      Drop(blocks, p)[i].product != Drop(blocks, p)[j].product
    decreases |blocks|
  {
    if blocks != [] {
      var first, rest := blocks[0], blocks[1..];
      DropDrops(rest, p);
      assert blocks == [first] + rest;
      forall b | b in rest ensures b.product != first.product {
        var j :| 0 <= j < |rest| && rest[j] == b;
        assert blocks[j + 1] == b;
      }
    }
  }

  lemma AfterIsValid(s: Managed, e: Edit)
    requires Valid(s) && (e.block.Some? ==> BlockOk(e.block.value))
    ensures Valid(After(s, e))
  {
    DropDrops(s.blocks, e.product);
    var closed := s.base + Separator(s.base);
    assert Closed(closed) == closed;
    var next := After(s, e).blocks;
    forall b | b in next ensures BlockOk(b.text) {
    }
    if s.blocks == [] {
      assert Drop(s.blocks, e.product) == [];
    }
  }

  /** A block goes right after the last one, or after the user's text once that is closed. */
  lemma PlacedBlock(base: string, middle: string, wrapped: string)
    requires middle == "" || (EndsWith(middle, '\n') && Separator(base) == "")
    ensures
      var cleared := base + middle;
      cleared + Separator(cleared) + wrapped == Closed(base) + (middle + wrapped)
  {
    var cleared := base + middle;
    if middle == "" {
      assert cleared == base && middle + wrapped == wrapped;
    } else {
      assert Separator(cleared) == "" && cleared + "" == cleared && base + "" == base;
      Associative(base, middle, wrapped);
    }
  }

  lemma InstalledText(s: Managed, p: Product, block: string)
    requires Valid(s) && BlockOk(block)
    ensures
      var cleared := s.base + Blocks(Drop(s.blocks, p));
      cleared + Separator(cleared) + Wrapped(p, block) == Render(After(s, Edit(p, Some(block))))
  {
    var rest := Drop(s.blocks, p);
    DropDrops(s.blocks, p);
    BlocksHaveNoReturn(rest);
    BlocksAppend(rest, Block(p, block));
    assert s.blocks == [] ==> rest == [];
    PlacedBlock(s.base, Blocks(rest), Wrapped(p, block));
  }

  /**
   An edit of a file in simple form is the edit of the form: the other product's block and the
   user's text stay as they are, and the markers never conflict.
   */
  lemma EditRefines(text: string, s: Managed, e: Edit)
    requires Valid(s) && Fold(text) == Render(s) && (e.block.Some? ==> BlockOk(e.block.value))
    ensures Valid(After(s, e)) && Fold(Render(After(s, e))) == Render(After(s, e))
    ensures EditText(text, e) == Some(Render(After(s, e)))
  {
    AfterIsValid(s, e);
    RenderIsFolded(After(s, e));
    var base := s.base;
    HasInPrefix(base, Separator(base), Begin(e.product));
    HasInPrefix(base, Separator(base), End(e.product));
    ClearedDrops(base, s.blocks, e.product);
    if e.block.Some? {
      InstalledText(s, e.product, e.block.value);
    }
  }

  /** One file under any edits; an edit that fails leaves it as it is. */
  function Run(text: string, edits: seq<Edit>, parses: string -> bool): string
    decreases |edits|
  {
    if edits == [] then text
    else
      match EditConfig(text, edits[0], parses)
      case Ok(next) => Run(next, edits[1..], parses)
      case _ => Run(text, edits[1..], parses)
  }

  function RunForm(s: Managed, text: string, edits: seq<Edit>, parses: string -> bool): Managed
    decreases |edits|
  {
    if edits == [] then s
    else
      match EditConfig(text, edits[0], parses)
      case Ok(next) => RunForm(After(s, edits[0]), next, edits[1..], parses)
      case _ => RunForm(s, text, edits[1..], parses)
  }

  /** Over any edits of both products the file stays the text of its simple form. */
  lemma {:induction false} AnyEdits(s: Managed, text: string, edits: seq<Edit>, parses: string -> bool)
    requires Valid(s) && Fold(text) == Render(s)
    requires forall e :: e in edits && e.block.Some? ==> BlockOk(e.block.value)
    ensures Valid(RunForm(s, text, edits, parses))
    ensures Fold(Run(text, edits, parses)) == Render(RunForm(s, text, edits, parses))
    decreases |edits|
  {
    if edits != [] {
      var e := edits[0];
      EditRefines(text, s, e);
      var edited := EditConfig(text, e, parses);
      if edited.Ok? {
        AnyEdits(After(s, e), edited.text, edits[1..], parses);
      } else {
        AnyEdits(s, text, edits[1..], parses);
      }
    }
  }

  /** An edit sets its own product's block and no other; the user's text at most gains a newline. */
  lemma EditIsLocal(s: Managed, e: Edit, q: Product)
    requires Valid(s)
    ensures Lookup(After(s, e).blocks, q) == if q == e.product then e.block else Lookup(s.blocks, q)
    ensures After(s, e).base == if e.block.Some? then Closed(s.base) else s.base
  {
    DropLookup(s.blocks, e.product, q);
    if e.block.Some? {
      LookupAppend(Drop(s.blocks, e.product), Block(e.product, e.block.value), q);
    }
  }

  lemma {:induction false} DropLookup(blocks: seq<Block>, p: Product, q: Product)
    requires forall i, j :: 0 <= i < j < |blocks| ==> blocks[i].product != blocks[j].product
    ensures Lookup(Drop(blocks, p), q) == if q == p then None else Lookup(blocks, q)
    decreases |blocks|
  {
    if blocks != [] {
      DropLookup(blocks[1..], p, q);
      if blocks[0].product == p {
        NotLookedUp(blocks[1..], p);
      } else {
        assert Drop(blocks, p)[1..] == Drop(blocks[1..], p);
      }
    }
  }

  lemma {:induction false} NotLookedUp(blocks: seq<Block>, p: Product)
    requires forall b :: b in blocks ==> b.product != p
    ensures Lookup(blocks, p) == None
    decreases |blocks|
  {
    if blocks != [] {
      NotLookedUp(blocks[1..], p);
    }
  }

  lemma {:induction false} LookupAppend(blocks: seq<Block>, last: Block, q: Product)
    ensures Lookup(blocks + [last], q) ==
      if Lookup(blocks, q).Some? then Lookup(blocks, q)
      else if last.product == q then Some(last.text) else None
    decreases |blocks|
  {
    if blocks != [] {
      LookupAppend(blocks[1..], last, q);
      assert (blocks + [last])[1..] == blocks[1..] + [last];
    }
  }

  /** Reinstalling is installing the last block once. */
  lemma ReinstallIsTheLast(s: Managed, p: Product, first: string, second: string)
    requires Valid(s) && BlockOk(first) && BlockOk(second)
    ensures After(After(s, Edit(p, Some(first))), Edit(p, Some(second))) == After(s, Edit(p, Some(second)))
  {
    DropDrops(s.blocks, p);
    var rest, last := Drop(s.blocks, p), Block(p, first);
    DropLast(rest, last);
    assert Closed(Closed(s.base)) == Closed(s.base);
  }

  lemma {:induction false} DropLast(blocks: seq<Block>, last: Block)
    requires forall b :: b in blocks ==> b.product != last.product
    ensures Drop(blocks + [last], last.product) == blocks
    decreases |blocks|
  {
    if blocks != [] {
      DropLast(blocks[1..], last);
      assert (blocks + [last])[1..] == blocks[1..] + [last];
      assert blocks == [blocks[0]] + blocks[1..];
    }
  }

  // The round trip on any text without markers.

  /** The text ends in a marker whose newline is missing. */
  predicate EndsInMarker(s: string, p: Product) {
    EndsWithCut(s, Begin(p)) || EndsWithCut(s, End(p))
  }

  predicate EndsWithCut(s: string, m: string)
    requires m != ""
  {
    var n := |m| - 1;
    |s| >= n && s[|s| - n..] == m[..n]
  }

  /**
   Installing and then removing a block gives back the normalised text with a final newline
   exactly when the text has no CRLF after another CR, does not end in a CR, and its last line is
   not a marker without its newline.
   */
  lemma RoundTripExactly(text: string, p: Product, block: string)
    requires Unmarked(Fold(text), p) && BlockOk(block)
    ensures
      var closed := Closed(Fold(text));
      var installed := closed + Wrapped(p, block);
      && EditText(text, Edit(p, Some(block))) == Some(installed)
      && (EditText(installed, Edit(p, None)) == Some(closed) <==>
            !HasReturnCrlf(text) && !EndsWith(text, '\r') && !EndsInMarker(Fold(text), p))
  {
    var normalized := Fold(text);
    var closed := Closed(normalized);
    MarkersHaveShape(p);
    CrlfInClosed(normalized);
    FoldTwice(text);
    FoldKeepsEnd(text);
    MarkerInClosed(normalized, Begin(p));
    MarkerInClosed(normalized, End(p));
    FoldOfInstalled(closed, p, block);
    RemovedIsClosed(normalized, p, block);
  }

  /** TOML v1.0.0: a newline is LF or CRLF, and a CR may stand nowhere else, comments and strings included. */
  ghost predicate RejectsLoneReturns(parses: string -> bool) {
    forall s :: parses(s) ==> NoLoneReturn(s)
  }

  /**
   The same for the whole edit, with a parse before and after each step. For a parser that keeps to
   TOML the classes with a lone CR never get that far: what is left is a last line that is a
   marker without its newline.
   */
  lemma ConfigRoundTrip(text: string, p: Product, block: string, parses: string -> bool)
    requires Unmarked(Fold(text), p) && BlockOk(block)
    ensures
      var closed := Closed(Fold(text));
      var installed := closed + Wrapped(p, block);
      && EditConfig(text, Edit(p, Some(block)), parses) ==
           (if parses(text) && parses(installed) then Ok(installed) else Unparsable)
      && (parses(text) && parses(installed) ==>
            (EditConfig(installed, Edit(p, None), parses) == Ok(closed) <==>
              && parses(closed)
              && !HasReturnCrlf(text) && !EndsWith(text, '\r') && !EndsInMarker(Fold(text), p)))
      && (parses(text) && parses(installed) && RejectsLoneReturns(parses) ==>
            (EditConfig(installed, Edit(p, None), parses) == Ok(closed) <==>
              parses(closed) && !EndsInMarker(Fold(text), p)))
  {
    RoundTripExactly(text, p, block);
    if parses(text) && RejectsLoneReturns(parses) {
      NoLoneReturnIsFoldable(text);
    }
  }

  /**
   A file whose only line is a marker without its newline: removing the block that was just
   installed removes the user's line with it.
   */
  lemma MarkerLineIsLost(block: string, parses: string -> bool)
    requires BlockOk(block)
    requires parses("# BEGIN aevra managed MCP")
    requires parses(Begin(Aevra) + Wrapped(Aevra, block)) && parses("")
    ensures
      var text := "# BEGIN aevra managed MCP";
      var installed := EditConfig(text, Edit(Aevra, Some(block)), parses);
      installed.Ok? && EditConfig(installed.text, Edit(Aevra, None), parses) == Ok("")
  {
    var text := "# BEGIN aevra managed MCP";
    assert Name(Aevra) == "aevra" && text + "\n" == Begin(Aevra);
    LineIsLost(text, Aevra, block, parses);
  }

  lemma LineIsLost(text: string, p: Product, block: string, parses: string -> bool)
    requires BlockOk(block) && Begin(p) == text + "\n"
    requires parses(text) && parses(Begin(p) + Wrapped(p, block)) && parses("")
    ensures
      var installed := EditConfig(text, Edit(p, Some(block)), parses);
      installed.Ok? && EditConfig(installed.text, Edit(p, None), parses) == Ok("")
  {
    InstalledAfterMarker(text, p, block);
    RemovedWithMarker(p, block);
  }

  lemma InstalledAfterMarker(text: string, p: Product, block: string)
    requires Begin(p) == text + "\n"
    ensures EditText(text, Edit(p, Some(block))) == Some(Begin(p) + Wrapped(p, block))
  {
    MarkersHaveShape(p);
    MarkersDiffer(p, p);
    assert forall c :: c in text ==> c in Begin(p);
    NoReturnNoCrlf(text);
    FoldFixed(text);
    ShorterHasNot(text, Begin(p));
    MarkerInMarker(End(p), Begin(p));
    NotInStart(text, Begin(p), End(p));
    assert !EndsWith(text, '\n') by {
      assert text != "" ==> Begin(p)[|text| - 1] == text[|text| - 1];
    }
  }

  lemma RemovedWithMarker(p: Product, block: string)
    requires BlockOk(block)
    ensures EditText(Begin(p) + Wrapped(p, block), Edit(p, None)) == Some("")
  {
    MarkersHaveShape(p);
    MarkersDiffer(p, p);
    NoReturnNoCrlf(Begin(p) + Wrapped(p, block));
    FoldFixed(Begin(p) + Wrapped(p, block));
    SecondOfTwo(Begin(p), block, End(p));
  }

  lemma SecondOfTwo(b: string, block: string, e: string)
    requires MarkerShape(b) && MarkerShape(e) && b != e && !Has(block, e)
    ensures Cut(b + (b + block + e), b, e) == Some("")
  {
    var text, head := b + (b + block + e), (b + b) + block;
    MarkerInMarker(e, b);
    NotInBlock(b, b, block, e);
    IndexAfter(head, e, "");
    assert text == head + (e + "");
    assert OccursAt(text, b, 0);
    IndexIsLeftmost(text, b, 0, 0);
    assert text[..0] + text[|head| + |e|..] == "";
  }

  lemma ShorterHasNot(s: string, m: string)
    requires |s| < |m|
    ensures !Has(s, m)
  {
    IndexIsAnOccurrence(s, m, 0);
  }

  lemma NotInStart(s: string, m: string, e: string)
    requires m == s + "\n" && !Has(m, e)
    ensures !Has(s, e)
  {
    IndexIsAnOccurrence(s, e, 0);
    if Has(s, e) {
      OccursInPrefix(s, "\n", e, IndexOf(s, e, 0).value);
      Hit(m, e, IndexOf(s, e, 0).value);
    }
  }

  lemma MarkerInClosed(s: string, m: string)
    requires MarkerShape(m) && !Has(s, m)
    ensures Has(Closed(s), m) <==> EndsWithCut(s, m)
  {
    if EndsWithCut(s, m) {
      NewlineMakesMarker(s, m);
    } else if Separator(s) == "" {
      assert Closed(s) == s;
    } else if Has(s + "\n", m) {
      NewlineMadeMarker(s, m);
    }
  }

  lemma NewlineMakesMarker(s: string, m: string)
    requires MarkerShape(m) && EndsWithCut(s, m)
    ensures Closed(s) == s + "\n" && Has(s + "\n", m)
  {
    var n := |m| - 1;
    var at := |s| - n;
    assert s[at..][n - 1] == s[|s| - 1];
    assert m == m[..n] + [m[n]];
    assert (s + "\n")[at..at + |m|] == s[at..] + "\n";
    Hit(s + "\n", m, at);
  }

  lemma NewlineMadeMarker(s: string, m: string)
    requires MarkerShape(m) && !Has(s, m) && Has(s + "\n", m)
    ensures EndsWithCut(s, m)
  {
    var i := IndexOf(s + "\n", m, 0).value;
    IndexIsAnOccurrence(s + "\n", m, 0);
    if i + |m| <= |s| {
      OccursInPrefix(s, "\n", m, i);
      Hit(s, m, i);
    } else {
      AtTheEnd(s, m, i);
    }
  }

  lemma AtTheEnd(s: string, m: string, i: nat)
    requires m != "" && i + |m| == |s| + 1 && OccursAt(s + "\n", m, i)
    ensures EndsWithCut(s, m)
  {
    assert s[i..] == (s + "\n")[i..i + |m|][..|m| - 1];
  }

  lemma FoldOfInstalled(closed: string, p: Product, block: string)
    requires BlockOk(block)
    ensures Fold(closed + Wrapped(p, block)) == Fold(closed) + Wrapped(p, block)
  {
    MarkersHaveShape(p);
    var wrapped := Wrapped(p, block);
    NoReturnNoCrlf(wrapped);
    FoldFixed(wrapped);
    FoldConcat(closed, wrapped);
  }

  /** A cut whose block is not the one just installed does not give the closed text back. */
  lemma EarlierEnd(s: string, folded: string, b: string, block: string, e: string)
    requires MarkerShape(b) && MarkerShape(e) && !Has(s, b) && Has(folded, e)
    ensures Cut(folded + (b + block + e), b, e) != Some(Closed(s))
  {
    var wrapped := b + block + e;
    IndexInPrefix(folded, wrapped, e);
    if Has(folded, b) {
      var from := IndexOf(folded, b, 0).value;
      IndexInPrefix(folded, wrapped, b);
      SecondBlockStays(s, folded, (folded + wrapped)[..from], b, block, e);
    } else {
      IndexAfter(folded, b, block + e);
      assert wrapped == b + (block + e);
    }
  }

  lemma EarlierBegin(s: string, folded: string, b: string, block: string, e: string)
    requires MarkerShape(b) && MarkerShape(e) && b != e && !Has(block, e)
    requires |folded| <= |s| && Has(folded, b) && !Has(folded, e)
    ensures Cut(folded + (b + block + e), b, e) != Some(s)
  {
    var wrapped, head := b + block + e, (folded + b) + block;
    IndexInPrefix(folded, wrapped, b);
    NotInBlock(folded, b, block, e);
    IndexAfter(head, e, "");
    assert folded + wrapped == head + (e + "");
    var from, to := IndexOf(folded, b, 0).value, |head|;
    assert |(folded + wrapped)[..from]| < |s|;
    assert (folded + wrapped)[to + |e|..] == "";
  }

  lemma SecondBlockStays(s: string, folded: string, head: string, b: string, block: string, e: string)
    requires MarkerShape(b) && MarkerShape(e) && !Has(s, b) && Has(folded, e)
    ensures
      var to := IndexOf(folded, e, 0).value + |e|;
      head + (folded + (b + block + e))[to..] != Closed(s)
  {
    var wrapped, closed := b + block + e, Closed(s);
    var to := IndexOf(folded, e, 0).value + |e|;
    if head + (folded + wrapped)[to..] == closed {
      var k := |closed| - |wrapped|;
      assert closed[k..] == wrapped;
      assert closed[k..k + |b|] == wrapped[..|b|] == b;
      OccursInPrefix(s, Separator(s), b, k);
      Hit(s, b, k);
    }
  }

  lemma RemovedIsClosed(normalized: string, p: Product, block: string)
    requires Unmarked(normalized, p) && BlockOk(block)
    ensures
      var closed := Closed(normalized);
      (Cleared(Fold(closed) + Wrapped(p, block), p) == Some(closed))
      <==> (!HasCrlf(closed) && Unmarked(closed, p))
  {
    var folded := Fold(Closed(normalized));
    FoldFixed(Closed(normalized));
    MarkersHaveShape(p);
    MarkersDiffer(p, p);
    if Unmarked(folded, p) {
      BlockIsCleared(folded, p, block, "");
      assert (folded + Wrapped(p, block)) + "" == folded + Wrapped(p, block) && folded + "" == folded;
    } else if Has(folded, End(p)) {
      EarlierEnd(normalized, folded, Begin(p), block, End(p));
    } else {
      EarlierBegin(Closed(normalized), folded, Begin(p), block, End(p));
    }
  }
}
