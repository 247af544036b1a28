/** Search for words in a file that holds a binary search tree, with a file cursor (lookup1.c) and with a
    pointer into the mapped file (lookup2.c). */
module Lookup {

  type Byte = b: nat | b < 256

  /** A word is a C string without its final NUL; a price is four bytes that are only copied. */
  datatype Tree = Leaf | Node(left: Tree, word: seq<Byte>, count: nat, price: seq<Byte>, right: Tree)

  datatype Report = NotFound | Found(count: nat, price: seq<Byte>)

  /** What main prints: the format error, or a report for each word, or the reports up to a copy that leaves the
      mapped memory and ends the program. */
  datatype Output = BadFormat | Reports(all: seq<Report>) | Crashed(all: seq<Report>)

  /** One search with a pointer: a report, or a copy that leaves the mapped memory. */
  datatype Attempt = Fault | Reported(report: Report)

  /** The first four bytes of a data file: "BTRE". */
  function Magic(): seq<Byte> {
    [66, 84, 82, 69]
  }

  /** The order of words: byte by byte, a proper prefix first. */
  function Order(a: seq<Byte>, b: seq<Byte>): (r: int)
    ensures -1 <= r <= 1
  {
    if a == [] then if b == [] then 0 else -1
    else if b == [] then 1
    else if a[0] != b[0] then if a[0] < b[0] then -1 else 1
    else Order(a[1..], b[1..])
  }

  /** strcmp of two buffers that hold a NUL each. */
  function Strcmp(a: seq<Byte>, b: seq<Byte>): int
    requires 0 in a && 0 in b
    decreases |a|
  {
    if a[0] != b[0] then a[0] - b[0]
    else if a[0] == 0 then 0
    else Strcmp(a[1..], b[1..])
  }

  /** An unsigned 32-bit number, low byte first. */
  function U32(s: seq<Byte>, p: nat): nat
    requires p + 4 <= |s|
  {
    s[p] as int + 0x100 * s[p + 1] as int + 0x1_0000 * s[p + 2] as int + 0x100_0000 * s[p + 3] as int
  }

  /** Its four bytes, the lowest first. */
  lemma U32Bytes(s: seq<Byte>, p: nat)
    requires p + 4 <= |s|
    ensures var x := U32(s, p);
            && x < 0x1_0000_0000
            && x % 0x100 == s[p] && x / 0x100 % 0x100 == s[p + 1]
            && x / 0x1_0000 % 0x100 == s[p + 2] && x / 0x100_0000 == s[p + 3]
  {
    FourBytes(s[p], s[p + 1], s[p + 2], s[p + 3]);
  }

  lemma FourBytes(a: Byte, b: Byte, c: Byte, d: Byte)
    ensures var x := a as int + 0x100 * b as int + 0x1_0000 * c as int + 0x100_0000 * d as int;
            && x < 0x1_0000_0000
            && x % 0x100 == a && x / 0x100 % 0x100 == b && x / 0x1_0000 % 0x100 == c && x / 0x100_0000 == d
  {
    var x := a as int + 0x100 * b as int + 0x1_0000 * c as int + 0x100_0000 * d as int;
    Digit(x, a, b as int + 0x100 * c as int + 0x1_0000 * d as int, 0x100);
    Digit(b as int + 0x100 * c as int + 0x1_0000 * d as int, b, c as int + 0x100 * d as int, 0x100);
    Digit(x, a as int + 0x100 * b as int, c as int + 0x100 * d as int, 0x1_0000);
    Digit(c as int + 0x100 * d as int, c, d, 0x100);
    Digit(x, a as int + 0x100 * b as int + 0x1_0000 * c as int, d, 0x100_0000);
  }

  lemma Digit(x: nat, low: nat, high: nat, w: nat)
    requires low < w && x == low + w * high
    ensures x % w == low && x / w == high
  {
    var q, r := x / w, x % w;
    assert x == w * q + r && r < w;
    assert q < high ==> w * (q + 1) <= w * high;
    assert high < q ==> w * (high + 1) <= w * q;
  }

  predicate WordAt(s: seq<Byte>, p: nat, w: seq<Byte>) {
    p + |w| < |s| && s[p..p + |w|] == w && s[p + |w|] == 0 && 0 !in w
  }

  /** The root of t is stored at p: left and right offsets, count, price, word. */
  predicate NodeAt(file: seq<Byte>, p: nat, t: Tree) {
    && t.Node? && p != 0 && p + 16 <= |file| && WordAt(file, p + 16, t.word)
    && t.count == U32(file, p + 8) && t.price == file[p + 12..p + 16]
  }

  /** Tree t is stored at offset p of the file; offset 0 is no tree. */
  predicate Serialized(file: seq<Byte>, p: nat, t: Tree)
    decreases t
  {
    if t.Leaf? then p == 0
    else
      && NodeAt(file, p, t)
      && Serialized(file, U32(file, p), t.left)
      && Serialized(file, U32(file, p + 4), t.right)
  }

  /** A file holds at most one tree at an offset. */
  lemma {:induction false} SerializedOnce(file: seq<Byte>, p: nat, t: Tree, u: Tree)
    requires Serialized(file, p, t) && Serialized(file, p, u)
    ensures t == u
    decreases t
  {
    if t.Node? {
      SerializedOnce(file, U32(file, p), t.left, u.left);
      SerializedOnce(file, U32(file, p + 4), t.right, u.right);
      SameNode(file, p, t, u);
    }
  }

  lemma SameNode(file: seq<Byte>, p: nat, t: Tree, u: Tree)
    requires NodeAt(file, p, t) && NodeAt(file, p, u)
    ensures t.word == u.word && t.count == u.count && t.price == u.price
  {
    SameWord(file, p + 16, t.word, u.word);
    SameWord(file, p + 16, u.word, t.word);
  }

  lemma SameWord(s: seq<Byte>, p: nat, w: seq<Byte>, v: seq<Byte>)
    requires WordAt(s, p, w) && WordAt(s, p, v)
    ensures |v| <= |w| && v == w[..|v|]
  {
    if |v| > 0 {
      var k := if |w| < |v| then |w| else |v| - 1;
      assert v[k] == s[p..p + |v|][k];
    }
    assert |v| <= |w| ==> s[p..p + |v|] == s[p..p + |w|][..|v|];
  }

  /** Some node of t, anywhere in it, has this word, count and price. */
  predicate Holds(t: Tree, word: seq<Byte>, count: nat, price: seq<Byte>) {
    t.Node? && (
      || (t.word == word && t.count == count && t.price == price)
      || Holds(t.left, word, count, price)
      || Holds(t.right, word, count, price))
  }

  predicate HasWord(t: Tree, word: seq<Byte>) {
    t.Node? && (t.word == word || HasWord(t.left, word) || HasWord(t.right, word))
  }

  ghost predicate SearchTree(t: Tree) {
    t.Leaf? || (
      && SearchTree(t.left) && SearchTree(t.right)
      && (forall w :: HasWord(t.left, w) ==> Order(w, t.word) < 0)
      && (forall w :: HasWord(t.right, w) ==> Order(w, t.word) > 0))
  }

  /** The search on the tree itself: left when the word is smaller, right when it is greater. */
  function Search(t: Tree, word: seq<Byte>): Report {
    if t.Leaf? then NotFound
    else if Order(word, t.word) < 0 then Search(t.left, word)
    else if Order(word, t.word) > 0 then Search(t.right, word)
    else Found(t.count, t.price)
  }

  lemma {:induction false} OrderIsEquality(a: seq<Byte>, b: seq<Byte>)
    ensures Order(a, b) == 0 <==> a == b
  {
    if a != [] && b != [] && a[0] == b[0] {
      OrderIsEquality(a[1..], b[1..]);
      assert a == [a[0]] + a[1..] && b == [b[0]] + b[1..];
    }
  }

  /** Word a is before word b: it is a proper prefix, or smaller at the first byte that differs. */
  ghost predicate Before(a: seq<Byte>, b: seq<Byte>) {
    exists k :: 0 <= k <= |a| && IsBeforeAt(a, b, k)
  }

  ghost predicate IsBeforeAt(a: seq<Byte>, b: seq<Byte>, k: nat)
    requires k <= |a|
  {
    k < |b| && a[..k] == b[..k] && (k < |a| ==> a[k] < b[k])
  }

  lemma {:induction false} OrderIsLexicographic(a: seq<Byte>, b: seq<Byte>)
    ensures Order(a, b) < 0 <==> Before(a, b)
    ensures Order(a, b) > 0 <==> Before(b, a)
  {
    if a == [] || b == [] || a[0] != b[0] {
      assert b != [] && (a == [] || a[0] < b[0]) ==> IsBeforeAt(a, b, 0);
      assert a != [] && (b == [] || b[0] < a[0]) ==> IsBeforeAt(b, a, 0);
      forall k | 0 <= k <= |a| && IsBeforeAt(a, b, k) ensures k == 0 {
        if k > 0 { SameFirst(a, b, k); }
      }
      forall k | 0 <= k <= |b| && IsBeforeAt(b, a, k) ensures k == 0 {
        if k > 0 { SameFirst(b, a, k); }
      }
    } else {
      OrderIsLexicographic(a[1..], b[1..]);
      BeforeTail(a, b);
      BeforeTail(b, a);
    }
  }

  lemma SameFirst(a: seq<Byte>, b: seq<Byte>, k: nat)
    requires 0 < k <= |a| && k <= |b| && a[..k] == b[..k]
    ensures a[0] == b[0]
  {
    assert a[..k][0] == b[..k][0];
  }

  lemma BeforeTail(a: seq<Byte>, b: seq<Byte>)
    requires a != [] && b != [] && a[0] == b[0]
    ensures Before(a, b) <==> Before(a[1..], b[1..])
  {
    if Before(a, b) {
      var k :| 0 <= k <= |a| && IsBeforeAt(a, b, k);
      assert k > 0 ==> a[1..][..k - 1] == a[..k][1..] && b[1..][..k - 1] == b[..k][1..];
      assert IsBeforeAt(a[1..], b[1..], k - 1);
    }
    if Before(a[1..], b[1..]) {
      var k :| 0 <= k <= |a[1..]| && IsBeforeAt(a[1..], b[1..], k);
      assert a[..k + 1] == [a[0]] + a[1..][..k] && b[..k + 1] == [b[0]] + b[1..][..k];
      assert IsBeforeAt(a, b, k + 1);
    }
  }

  lemma {:induction false} HoldsHasWord(t: Tree, word: seq<Byte>, count: nat, price: seq<Byte>)
    requires Holds(t, word, count, price)
    ensures HasWord(t, word)
  {
    if Holds(t.left, word, count, price) {
      HoldsHasWord(t.left, word, count, price);
    } else if Holds(t.right, word, count, price) {
      HoldsHasWord(t.right, word, count, price);
    }
  }

  /** On a search tree the search finds a word exactly when some node has it, and gives that node's data. */
  lemma {:induction false} SearchIsMembership(t: Tree, word: seq<Byte>, count: nat, price: seq<Byte>)
    requires SearchTree(t)
    ensures Search(t, word) == Found(count, price) <==> Holds(t, word, count, price)
  {
    if t.Node? {
      OrderIsEquality(word, t.word);
      SearchIsMembership(t.left, word, count, price);
      SearchIsMembership(t.right, word, count, price);
      if Holds(t.left, word, count, price) { HoldsHasWord(t.left, word, count, price); }
      if Holds(t.right, word, count, price) { HoldsHasWord(t.right, word, count, price); }
    }
  }

  lemma {:induction false} NotFoundIsAbsence(t: Tree, word: seq<Byte>)
    requires SearchTree(t)
    ensures Search(t, word) == NotFound <==> !HasWord(t, word)
  {
    if t.Node? {
      OrderIsEquality(word, t.word);
      NotFoundIsAbsence(t.left, word);
      NotFoundIsAbsence(t.right, word);
    }
  }

  /** Up to n bytes of s from p on: fewer when s ends before. */
  function Piece(s: seq<Byte>, p: nat, n: nat): (r: seq<Byte>)
    ensures |r| <= n
  {
    if p >= |s| then [] else s[p..if p + n <= |s| then p + n else |s|]
  }

  /** The first bytes of found are overwritten. */
  function Overlay(found: seq<Byte>, piece: seq<Byte>): (r: seq<Byte>)
    requires |piece| <= |found|
    ensures |r| == |found|
  {
    piece + found[|piece|..]
  }

  /** The buffer agrees with the stored word and its NUL as far as a word's length plus one, and then has a NUL. */
  predicate Agrees(word: seq<Byte>, stored: seq<Byte>, buf: seq<Byte>) {
    && |buf| == |word| + 2 && buf[|word| + 1] == 0
    && var n := if |stored| < |word| then |stored| else |word|;
       buf[..n + 1] == (stored + [0])[..n + 1]
  }

  /** res has the sign of the order of a word and a stored word. */
  predicate Tells(res: int, word: seq<Byte>, stored: seq<Byte>) {
    (res < 0 <==> Order(word, stored) < 0) && (res > 0 <==> Order(word, stored) > 0)
  }

  /** Comparing a word with its own length plus one bytes of a stored word, and then a NUL, tells as much as
      comparing it with the whole stored word. What the buffer holds past a NUL does not matter. */
  lemma {:induction false} PrefixComparison(word: seq<Byte>, stored: seq<Byte>, buf: seq<Byte>)
    requires 0 !in word && 0 !in stored && Agrees(word, stored, buf)
    ensures 0 in word + [0] && 0 in buf && Tells(Strcmp(word + [0], buf), word, stored)
    decreases |word|
  {
    var n := if |stored| < |word| then |stored| else |word|;
    assert (word + [0])[|word|] == 0;
    assert buf[0] == buf[..n + 1][0] == (stored + [0])[0];
    if word != [] && stored != [] && word[0] == stored[0] {
      assert (word + [0])[1..] == word[1..] + [0];
      assert buf[1..][..n] == buf[..n + 1][1..] == (stored + [0])[..n + 1][1..] == (stored[1..] + [0])[..n];
      PrefixComparison(word[1..], stored[1..], buf[1..]);
    }
  }

  /** The bytes read for a node agree with its word and final NUL, as far as both go. */
  lemma NodeBytes(file: seq<Byte>, p: nat, t: Tree, word: seq<Byte>, found: seq<Byte>)
    requires NodeAt(file, p, t) && |found| == |word| + 2 && found[|word| + 1] == 0
    ensures Agrees(word, t.word, Overlay(found, Piece(file, p + 16, |word| + 1)))
  {
    var n := if |t.word| < |word| then |t.word| else |word|;
    var q, piece := p + 16, Piece(file, p + 16, |word| + 1);
    assert |piece| >= n + 1;
    forall i | 0 <= i < n + 1 ensures piece[i] == (t.word + [0])[i] {
      assert piece[i] == file[q + i];
      assert i < |t.word| ==> file[q..q + |t.word|][i] == t.word[i];
    }
  }

  /** A FILE open for reading. */
  class Stream {
    const bytes: seq<Byte>
    var pos: nat

    constructor (bytes: seq<Byte>)
      ensures this.bytes == bytes && pos == 0
    {
      this.bytes, pos := bytes, 0;
    }

    /** fseek from the start. */
    method SeekTo(p: nat)
      modifies this
      ensures pos == p
    {
      pos := p;
    }

    /** fseek from the current position. */
    method SeekBy(d: int)
      requires pos + d >= 0
      modifies this
      ensures pos == old(pos) + d
    {
      pos := pos + d;
    }

    method Read(n: nat) returns (piece: seq<Byte>)
      modifies this
      ensures piece == Piece(bytes, old(pos), n) && pos == old(pos) + |piece|
    {
      piece := Piece(bytes, pos, n);
      pos := pos + |piece|;
    }

    method ReadU32() returns (x: nat)
      requires pos + 4 <= |bytes|
      modifies this
      ensures x == U32(bytes, old(pos)) && pos == old(pos) + 4
    {
      var piece := Read(4);
      x := U32(piece, 0);
    }
  }

  /** Reads the start of the word of a node into found and compares; the cursor stays at the word. */
  method CompareWithCursor(file: Stream, p: nat, found: seq<Byte>, word: seq<Byte>, ghost t: Tree)
    returns (now: seq<Byte>, res: int)
    requires NodeAt(file.bytes, p, t) && 0 !in word
    requires |found| == |word| + 2 && found[|word| + 1] == 0
    modifies file
    ensures |now| == |word| + 2 && now[|word| + 1] == 0 && Tells(res, word, t.word) && file.pos == p + 16
  {
    file.SeekTo(p + 16);
    var piece := file.Read(|word| + 1);
    now := Overlay(found, piece);
    file.SeekTo(p + 16);
    NodeBytes(file.bytes, p, t, word, found);
    PrefixComparison(word, t.word, now);
    res := Strcmp(word + [0], now);
  }

  /** One round of the loop of main in lookup1.c. */
  method FindWithCursor(file: Stream, word: seq<Byte>, ghost t: Tree) returns (r: Report)
    requires Serialized(file.bytes, 4, t) && t.Node? && 0 !in word
    modifies file
    ensures r == Search(t, word)
  {
    var len := |word|;
    var found: seq<Byte> := seq(len + 2, _ => 0);
    ghost var cur, node := t, 4;
    var res;
    found, res := CompareWithCursor(file, 4, found, word, t);
    while res != 0
      invariant Serialized(file.bytes, node, cur) && cur.Node? && file.pos == node + 16
      invariant |found| == len + 2 && found[len + 1] == 0 && Tells(res, word, cur.word)
      invariant Search(t, word) == Search(cur, word)
      decreases cur
    {
      if res < 0 {
        file.SeekBy(-16);
        cur := cur.left;
      } else if res > 0 {
        file.SeekBy(-12);
        cur := cur.right;
      }
      var offset := file.ReadU32();
      if offset == 0 {
        break;
      }
      node := offset;
      found, res := CompareWithCursor(file, offset, found, word, cur);
    }
    if res != 0 {
      r := NotFound;
    } else {
      file.SeekBy(-8);
      var count := file.ReadU32();
      var price := file.Read(4);
      r := Found(count, price);
    }
  }

  /** main of lookup1.c, without its arguments. */
  method LookupWithCursor(file: Stream, words: seq<seq<Byte>>, ghost t: Tree) returns (out: Output)
    requires file.pos == 0 && (forall i :: 0 <= i < |words| ==> 0 !in words[i])
    requires Piece(file.bytes, 0, 4) == Magic() ==> Serialized(file.bytes, 4, t) && t.Node?
    modifies file
    ensures out == CursorOutput(file.bytes, words, t)
  {
    var btre := file.Read(4);
    if btre != Magic() {
      return BadFormat;
    }
    var all := [];
    for i := 0 to |words|
      invariant all == Answers(t, words[..i])
    {
      var r := FindWithCursor(file, words[i], t);
      assert words[..i + 1] == words[..i] + [words[i]];
      all := all + [r];
    }
    assert words[..|words|] == words;
    out := Reports(all);
  }

  function CursorOutput(file: seq<Byte>, words: seq<seq<Byte>>, t: Tree): Output {
    if Piece(file, 0, 4) == Magic() then Reports(Answers(t, words)) else BadFormat
  }

  function Answers(t: Tree, words: seq<seq<Byte>>): (r: seq<Report>)
    ensures |r| == |words|
  {
    if words == [] then [] else Answers(t, words[..|words| - 1]) + [Search(t, words[|words| - 1])]
  }

  lemma {:induction false} AnswersAt(t: Tree, words: seq<seq<Byte>>, i: nat)
    requires i < |words|
    ensures Answers(t, words)[i] == Search(t, words[i])
  {
    if i < |words| - 1 {
      AnswersAt(t, words[..|words| - 1], i);
    }
  }

  lemma SameNumber(file: seq<Byte>, mem: seq<Byte>, p: nat)
    requires file <= mem && p + 4 <= |file|
    ensures U32(mem, p) == U32(file, p)
  {
  }

  /** What lies after the file in the mapping does not change a node. */
  lemma Mapped(file: seq<Byte>, mem: seq<Byte>, p: nat, t: Tree)
    requires file <= mem && NodeAt(file, p, t)
    ensures NodeAt(mem, p, t)
  {
    var q, n := p + 16, |t.word|;
    assert mem[q..q + n] == file[q..q + n];
    assert mem[p + 12..q] == file[p + 12..q];
  }

  /** Copies the start of the word of a node into found and compares. */
  method CompareWithPointer(mem: seq<Byte>, ghost file: seq<Byte>, p: nat, found: seq<Byte>, word: seq<Byte>, ghost t: Tree)
    returns (now: seq<Byte>, res: int)
    requires file <= mem && NodeAt(file, p, t) && 0 !in word && p + 16 + |word| + 1 <= |mem|
    requires |found| == |word| + 2 && found[|word| + 1] == 0
    ensures |now| == |word| + 2 && now[|word| + 1] == 0 && Tells(res, word, t.word)
  {
    Mapped(file, mem, p, t);
    now := Overlay(found, mem[p + 16..p + 16 + |word| + 1]);
    NodeBytes(mem, p, t, word, found);
    PrefixComparison(word, t.word, now);
    res := Strcmp(word + [0], now);
  }

  /** Every node that the search visits lies far enough from n for a copy of |word| + 1 bytes of its word. */
  predicate PathFits(file: seq<Byte>, p: nat, t: Tree, word: seq<Byte>, n: nat)
    requires Serialized(file, p, t)
    decreases t
  {
    t.Leaf? || (
      && p + 16 + |word| + 1 <= n
      && (Order(word, t.word) < 0 ==> PathFits(file, U32(file, p), t.left, word, n))
      && (Order(word, t.word) > 0 ==> PathFits(file, U32(file, p + 4), t.right, word, n)))
  }

  /** The search as the pointer version makes it, in n bytes of mapped memory. */
  function PointerSearch(file: seq<Byte>, p: nat, t: Tree, word: seq<Byte>, n: nat): Attempt
    requires Serialized(file, p, t)
    decreases t
  {
    if t.Leaf? then Reported(NotFound)
    else if p + 16 + |word| + 1 > n then Fault
    else if Order(word, t.word) < 0 then PointerSearch(file, U32(file, p), t.left, word, n)
    else if Order(word, t.word) > 0 then PointerSearch(file, U32(file, p + 4), t.right, word, n)
    else Reported(Found(t.count, t.price))
  }

  /** It faults exactly when some node on the search path is too close to the end. */
  lemma {:induction false} FaultsIff(file: seq<Byte>, p: nat, t: Tree, word: seq<Byte>, n: nat)
    requires Serialized(file, p, t)
    ensures PointerSearch(file, p, t, word, n) ==
              if PathFits(file, p, t, word, n) then Reported(Search(t, word)) else Fault
    decreases t
  {
    if t.Node? {
      FaultsIff(file, U32(file, p), t.left, word, n);
      FaultsIff(file, U32(file, p + 4), t.right, word, n);
    }
  }

  /** One round of the loop of main in lookup2.c, in mapped memory that starts with the file: it faults exactly
      when some node on the search path is too close to the end of that memory. */
  method FindWithPointer(mem: seq<Byte>, ghost file: seq<Byte>, word: seq<Byte>, ghost t: Tree) returns (r: Attempt)
    requires file <= mem && Serialized(file, 4, t) && t.Node? && 0 !in word
    ensures r == if PathFits(file, 4, t, word, |mem|) then Reported(Search(t, word)) else Fault
  {
    r := SearchMapped(mem, file, word, t);
    FaultsIff(file, 4, t, word, |mem|);
  }

  method ReadOffset(mem: seq<Byte>, ghost file: seq<Byte>, at: nat) returns (offset: nat)
    requires file <= mem && at + 4 <= |file|
    ensures offset == U32(file, at)
  {
    offset := U32(mem, at);
    SameNumber(file, mem, at);
  }

  /** Which way a comparison sends the search. */
  lemma SearchStep(file: seq<Byte>, p: nat, t: Tree, word: seq<Byte>, n: nat, res: int)
    requires Serialized(file, p, t) && t.Node? && p + 16 + |word| + 1 <= n && Tells(res, word, t.word)
    ensures p + 16 <= |file|
    ensures res < 0 ==> GoesOn(file, p, t, word, n, U32(file, p), t.left)
    ensures res > 0 ==> GoesOn(file, p, t, word, n, U32(file, p + 4), t.right)
    ensures res == 0 ==> PointerSearch(file, p, t, word, n) == Reported(Found(t.count, t.price))
  {
  }

  ghost predicate GoesOn(file: seq<Byte>, p: nat, t: Tree, word: seq<Byte>, n: nat, q: nat, child: Tree) {
    && Serialized(file, p, t) && Serialized(file, q, child) && (q == 0 <==> child.Leaf?)
    && PointerSearch(file, p, t, word, n) == PointerSearch(file, q, child, word, n)
  }

  method SearchMapped(mem: seq<Byte>, ghost file: seq<Byte>, word: seq<Byte>, ghost t: Tree) returns (r: Attempt)
    requires file <= mem && Serialized(file, 4, t) && t.Node? && 0 !in word
    ensures r == PointerSearch(file, 4, t, word, |mem|)
  {
    var len := |word|;
    var found: seq<Byte> := seq(len + 2, _ => 0);
    ghost var cur, node := t, 4;
    var temp: nat := 4 + 16;
    if temp + len + 1 > |mem| {
      return Fault;
    }
    var res;
    found, res := CompareWithPointer(mem, file, 4, found, word, t);
    while res != 0
      invariant Serialized(file, node, cur) && cur.Node? && temp == node + 16 && temp + len + 1 <= |mem|
      invariant |found| == len + 2 && found[len + 1] == 0 && Tells(res, word, cur.word)
      invariant PointerSearch(file, 4, t, word, |mem|) == PointerSearch(file, node, cur, word, |mem|)
      decreases cur
    {
      SearchStep(file, node, cur, word, |mem|, res);
      if res < 0 {
        temp := temp - 16;
        cur := cur.left;
      } else if res > 0 {
        temp := temp - 12;
        cur := cur.right;
      }
      var offset := ReadOffset(mem, file, temp);
      if offset == 0 {
        break;
      }
      node := offset;
      temp := offset + 16;
      if temp + len + 1 > |mem| {
        return Fault;
      }
      found, res := CompareWithPointer(mem, file, offset, found, word, cur);
    }
    if res != 0 {
      r := Reported(NotFound);
    } else {
      SearchStep(file, node, cur, word, |mem|, res);
      var report := ReportAt(mem, file, node, temp, cur);
      r := Reported(report);
    }
  }

  /** Count and price of the node whose word is at temp. */
  method ReportAt(mem: seq<Byte>, ghost file: seq<Byte>, ghost p: nat, temp: nat, ghost t: Tree) returns (r: Report)
    requires file <= mem && temp == p + 16 && NodeAt(file, p, t)
    ensures r == Found(t.count, t.price)
  {
    Mapped(file, mem, p, t);
    var at := temp - 8;
    var count := U32(mem, at);
    at := at + 4;
    r := Found(count, mem[at..at + 4]);
  }

  const PAGE: nat := 4096

  /** How much memory a mapping of n bytes has: whole pages. */
  function Pages(n: nat): (r: nat)
    ensures n <= r < n + PAGE && r % PAGE == 0
  {
    (n + PAGE - 1) / PAGE * PAGE
  }

  /** How many of the words come before the first whose search leaves the mapping. */
  function Fitting(file: seq<Byte>, t: Tree, words: seq<seq<Byte>>): (k: nat)
    requires Serialized(file, 4, t)
    ensures k <= |words|
    ensures forall i :: 0 <= i < k ==> PathFits(file, 4, t, words[i], Pages(|file|))
    ensures k < |words| ==> !PathFits(file, 4, t, words[k], Pages(|file|))
  {
    if words == [] || !PathFits(file, 4, t, words[0], Pages(|file|)) then 0 else 1 + Fitting(file, t, words[1..])
  }

  function PointerOutput(file: seq<Byte>, words: seq<seq<Byte>>, t: Tree): Output
    requires Piece(file, 0, 4) == Magic() ==> Serialized(file, 4, t)
  {
    if file == [] then Crashed([])
    else if Piece(file, 0, 4) != Magic() then BadFormat
    else
      var k := Fitting(file, t, words);
      if k == |words| then Reports(Answers(t, words)) else Crashed(Answers(t, words[..k]))
  }

  /** mmap: the file, and zeros to the end of the page. */
  method MapFile(file: seq<Byte>) returns (mem: seq<Byte>)
    requires file != []
    ensures file <= mem && |mem| == Pages(|file|)
    ensures Piece(mem, 0, 4) == Magic() <==> Piece(file, 0, 4) == Magic()
  {
    mem := file + seq(Pages(|file|) - |file|, _ => 0);
    assert |file| < 4 ==> Piece(mem, 0, 4)[3] == 0;
    assert |file| >= 4 ==> Piece(mem, 0, 4) == Piece(file, 0, 4);
  }

  /** main of lookup2.c, without its arguments. The mapping of an empty file fails, and so does every use of it. */
  method LookupWithPointer(file: seq<Byte>, words: seq<seq<Byte>>, ghost t: Tree) returns (out: Output)
    requires forall i :: 0 <= i < |words| ==> 0 !in words[i]
    requires Piece(file, 0, 4) == Magic() ==> Serialized(file, 4, t) && t.Node?
    ensures out == PointerOutput(file, words, t)
  {
    if file == [] {
      return Crashed([]);
    }
    var mem := MapFile(file);
    if Piece(mem, 0, 4) != Magic() {
      return BadFormat;
    }
    out := AnswerAll(mem, file, words, t);
  }

  /** The loop over the words. */
  method AnswerAll(mem: seq<Byte>, ghost file: seq<Byte>, words: seq<seq<Byte>>, ghost t: Tree) returns (out: Output)
    requires file <= mem && |mem| == Pages(|file|) && Serialized(file, 4, t) && t.Node?
    requires forall i :: 0 <= i < |words| ==> 0 !in words[i]
    ensures var k := Fitting(file, t, words);
            out == if k == |words| then Reports(Answers(t, words)) else Crashed(Answers(t, words[..k]))
  {
    var all := [];
    for i := 0 to |words|
      invariant all == Answers(t, words[..i])
      invariant i <= Fitting(file, t, words)
    {
      var r := FindWithPointer(mem, file, words[i], t);
      if r.Fault? {
        return Crashed(all);
      }
      assert words[..i + 1] == words[..i] + [words[i]];
      all := all + [r.report];
    }
    assert words[..|words|] == words;
    out := Reports(all);
  }

  /** Both versions print the same exactly when the file is not empty and, if it is a data file, no search path
      comes too close to the end of the last page. */
  lemma VersionsAgreeIff(file: seq<Byte>, words: seq<seq<Byte>>, t: Tree)
    requires Piece(file, 0, 4) == Magic() ==> Serialized(file, 4, t)
    ensures PointerOutput(file, words, t) == CursorOutput(file, words, t) <==>
              && file != []
              && (Piece(file, 0, 4) == Magic() ==>
                    forall i :: 0 <= i < |words| ==> PathFits(file, 4, t, words[i], Pages(|file|)))
  {
  }

  /** It is enough that the rest of the last page is as long as the word. */
  lemma {:induction false} RoomIsEnough(file: seq<Byte>, p: nat, t: Tree, word: seq<Byte>, n: nat)
    requires Serialized(file, p, t) && |file| + |word| <= n
    ensures PathFits(file, p, t, word, n)
    decreases t
  {
    if t.Node? {
      RoomIsEnough(file, U32(file, p), t.left, word, n);
      RoomIsEnough(file, U32(file, p + 4), t.right, word, n);
    }
  }

  /** A file of one page: "a" at its start, and "b" to the right of it in the last 18 bytes. */
  function FullPage(): (r: seq<Byte>)
    ensures |r| == PAGE
  {
    seq(PAGE, i requires 0 <= i < PAGE => if i < 4 then Magic()[i] else if i == 8 then 0xEE else if i == 9 then 0x0F
                   else if i == 20 then 97 else if i == PAGE - 2 then 98 else 0)
  }

  function TwoWords(): Tree {
    Node(Leaf, [97], 0, [0, 0, 0, 0], Node(Leaf, [98], 0, [0, 0, 0, 0], Leaf))
  }

  /** A file of three words: "b" at the root with count 258 and a price, "a" to its left, "cd" to its right. */
  function ThreeWordsFile(): (r: seq<Byte>)
    ensures |r| == 59
  {
    seq(59, i requires 0 <= i < 59 => ThreeWordsByte(i))
  }

  function ThreeWordsByte(i: nat): Byte {
    if i == 0 then 66 else if i == 1 then 84 else if i == 2 then 82 else if i == 3 then 69
    else if i == 4 then 22 else if i == 8 then 40 else if i == 12 then 2 else if i == 13 then 1
    else if i == 16 then 9 else if i == 17 then 8 else if i == 18 then 7 else if i == 19 then 6 else if i == 20 then 98
    else if i == 30 then 1 else if i == 38 then 97
    else if i == 48 then 3 else if 52 <= i < 56 then 1 else if i == 56 then 99 else if i == 57 then 100
    else 0
  }

  function ThreeWords(): Tree {
    Node(Node(Leaf, [97], 1, [0, 0, 0, 0], Leaf), [98], 258, [9, 8, 7, 6], Node(Leaf, [99, 100], 3, [1, 1, 1, 1], Leaf))
  }

  lemma RootNumbers()
    ensures var file := ThreeWordsFile(); U32(file, 4) == 22 && U32(file, 8) == 40 && U32(file, 12) == 258
  {
  }

  lemma LeftNumbers()
    ensures var file := ThreeWordsFile(); U32(file, 22) == 0 && U32(file, 26) == 0 && U32(file, 30) == 1
  {
  }

  lemma RightNumbers()
    ensures var file := ThreeWordsFile(); U32(file, 40) == 0 && U32(file, 44) == 0 && U32(file, 48) == 3
  {
  }

  lemma LayoutPieces()
    ensures var file := ThreeWordsFile();
            && Piece(file, 0, 4) == Magic()
            && WordAt(file, 20, [98]) && WordAt(file, 38, [97]) && WordAt(file, 56, [99, 100])
            && file[16..20] == [9, 8, 7, 6] && file[34..38] == [0, 0, 0, 0] && file[52..56] == [1, 1, 1, 1]
  {
    var file := ThreeWordsFile();
    assert file[20..21] == [98] && file[38..39] == [97] && file[56..58] == [99, 100];
  }

  /** The layout byte by byte. */
  lemma LayoutExample()
    ensures Piece(ThreeWordsFile(), 0, 4) == Magic() && Serialized(ThreeWordsFile(), 4, ThreeWords())
  {
    var file, t := ThreeWordsFile(), ThreeWords();
    RootNumbers();
    LeftNumbers();
    RightNumbers();
    LayoutPieces();
    assert NodeAt(file, 22, t.left) && Serialized(file, 22, t.left);
    assert NodeAt(file, 40, t.right) && Serialized(file, 40, t.right);
    assert NodeAt(file, 4, t);
  }

  /** On the full page the search for "b" succeeds, and the search for "cat" leaves the mapping, where the cursor
      version reports that the word is not there. */
  lemma OverreadOfAFullPage()
    ensures Piece(FullPage(), 0, 4) == Magic() && Serialized(FullPage(), 4, TwoWords()) && SearchTree(TwoWords())
    ensures PathFits(FullPage(), 4, TwoWords(), [98], Pages(PAGE))
    ensures !PathFits(FullPage(), 4, TwoWords(), [99, 97, 116], Pages(PAGE))
    ensures Search(TwoWords(), [99, 97, 116]) == NotFound
  {
    var file, right := FullPage(), TwoWords().right;
    var at := PAGE - 18;
    assert U32(file, 4) == 0 && U32(file, 8) == at && U32(file, 12) == 0;
    assert U32(file, at) == 0 && U32(file, at + 4) == 0 && U32(file, at + 8) == 0;
    assert file[20..21] == [97] && file[at + 16..at + 17] == [98];
    assert file[16..20] == [0, 0, 0, 0] && file[at + 12..at + 16] == [0, 0, 0, 0];
    assert NodeAt(file, 4, TwoWords()) && NodeAt(file, at, right);
    assert Order([98], [97]) > 0 && Order([99, 97, 116], [97]) > 0 && Order([99, 97, 116], [98]) > 0;
    forall w | HasWord(right, w) ensures Order(w, [97]) > 0 {
      assert right.left == Leaf && right.right == Leaf && !HasWord(Leaf, w);
      assert w == right.word;
    }
  }
}
