/**
 * The Mach-O export trie: read_uleb and walk of tools/dsc-disasm/find-symbol.py, against the trie
 * that a buffer lays out. The number format is ULEB128 of section 7.6 of DWARF 5.
 */
module ExportTrie {
  import opened Bits
  import opened Bytes

  // ---- unsigned LEB128 -----------------------------------------------------------------

  /** A complete encoding: the top bit is set in every octet but the last. */
  predicate Terminated(s: seq<Byte>)
  {
    s != [] && s[|s| - 1] < 0x80 && forall k :: 0 <= k < |s| - 1 ==> s[k] >= 0x80
  }

  type Uleb = s: seq<Byte> | Terminated(s) witness [0]

  /** The number seven-bit groups spell, least significant first. */
  function Payload(s: seq<Byte>): nat
  {
    if s == [] then 0 else s[0] % 0x80 + 0x80 * Payload(s[1..])
  }

  /** The shortest encoding of a number. */
  function Encode(n: nat): (s: Uleb)
    ensures Payload(s) == n
    decreases n
  {
    if n < 0x80 then
      assert [n][1..] == [];
      [n]
    else
      var rest := Encode(n / 0x80);
      var s := [0x80 + n % 0x80] + rest;
      assert s[1..] == rest;
      s
  }

  /** The number at `p` and the position after it; nothing when the buffer ends first. */
  function Number(buf: seq<Byte>, p: nat): (r: Option<(nat, nat)>)
    ensures r.Some? ==> p < r.value.1 <= |buf|
    decreases |buf| - p
  {
    if p >= |buf| then None
    else if buf[p] < 0x80 then Some((buf[p], p + 1))
    else
      match Number(buf, p + 1)
      case None => None
      case Some((v, q)) => Some((buf[p] % 0x80 + 0x80 * v, q))
  }

  lemma SevenMoreBits(shift: nat)
    ensures Power2(shift + 7) == 0x80 * Power2(shift)
  {
    hide Power2;
    Places();
    PowerAdds(7, shift);
  }

  ghost predicate Pending(all: Option<(nat, nat)>, result: nat, scale: nat, rest: Option<(nat, nat)>)
  {
    match rest
    case None => all == None
    case Some((v, q)) => all == Some((result + scale * v, q))
  }

  lemma GroupFits(result: nat, scale: nat, b: Byte)
    requires result < scale
    ensures result + b % 0x80 * scale < 0x80 * scale
  {
    var spare := 0x7F - b % 0x80;
    assert spare * scale >= 0;
    assert 0x80 * scale == b % 0x80 * scale + spare * scale + scale;
  }

  lemma OneMoreGroup(buf: seq<Byte>, p: nat, all: Option<(nat, nat)>, result: nat, scale: nat)
    requires p < |buf| && Pending(all, result, scale, Number(buf, p))
    ensures var sum := result + buf[p] % 0x80 * scale;
      if buf[p] < 0x80 then all == Some((sum, p + 1)) else Pending(all, sum, 0x80 * scale, Number(buf, p + 1))
  {
    var rest := Number(buf, p + 1);
    if buf[p] >= 0x80 && rest.Some? {
      var g, v := buf[p] % 0x80, rest.value.0;
      assert scale * (g + 0x80 * v) == g * scale + 0x80 * scale * v;
    }
  }

  /** The groups never overlap, so or-ing one in above the others is adding it. */
  lemma GroupIsAdded(result: nat, b: Byte, shift: nat)
    requires result < Power2(shift)
    ensures Or(result, Shl(And(b, 0x7F), shift)) == result + b % 0x80 * Power2(shift)
    ensures And(b, 0x80) == 0 <==> b < 0x80
  {
    hide And, Or, Shl, Power2;
    Places();
    AndLow(b, 7);
    ShlIsProduct(b % 0x80, shift);
    OrAbove(result, b % 0x80, shift);
    AndBit(b, 7);
  }

  /** read_uleb; nothing is its IndexError. */
  method ReadUleb(buf: seq<Byte>, start: nat) returns (r: Option<(nat, nat)>)
    ensures r == Number(buf, start)
  {
    hide Power2, And, Or, Shl;
    ghost var all := Number(buf, start);
    var p: nat, result: nat, shift: nat := start, 0, 0;
    assert Power2(0) == 1 && Pending(all, 0, 1, all) by {
      NothingReadYet(all);
    }
    while true
      invariant Pending(all, result, Power2(shift), Number(buf, p))
      invariant result < Power2(shift)
      decreases |buf| - p
    {
      hide Pending;
      if p >= |buf| {
        ExhaustedIsNone(buf, p, all, result, Power2(shift));
        return None;
      }
      var b := buf[p];
      OneMoreGroup(buf, p, all, result, Power2(shift));
      GroupFits(result, Power2(shift), b);
      GroupIsAdded(result, b, shift);
      result := Or(result, Shl(And(b, 0x7F), shift));
      p := p + 1;
      if And(b, 0x80) == 0 {
        return Some((result, p));
      }
      SevenMoreBits(shift);
      shift := shift + 7;
    }
  }

  lemma NothingReadYet(all: Option<(nat, nat)>)
    ensures Power2(0) == 1 && Pending(all, 0, 1, all)
  {
  }

  lemma ExhaustedIsNone(buf: seq<Byte>, p: nat, all: Option<(nat, nat)>, result: nat, scale: nat)
    requires p >= |buf| && Pending(all, result, scale, Number(buf, p))
    ensures all == None
  {
  }

  /** Reading inverts encoding, whatever surrounds it, and consumes exactly the encoding. */
  lemma {:induction false} NumberReads(before: seq<Byte>, s: Uleb, after: seq<Byte>)
    ensures Number(before + s + after, |before|) == Some((Payload(s), |before| + |s|))
    decreases |s|
  {
    var buf := before + s + after;
    assert buf[|before|] == s[0];
    if |s| == 1 {
      assert s[1..] == [];
    } else {
      var head, tail := before + [s[0]], s[1..];
      assert forall k :: 0 <= k < |tail| ==> tail[k] == s[k + 1];
      NumberReads(head, tail, after);
      assert head + tail + after == buf;
    }
  }

  /** Whatever is read was encoded there; nothing is read only where no encoding starts. */
  lemma {:induction false} NumberIsThere(buf: seq<Byte>, p: nat)
    requires p <= |buf|
    ensures match Number(buf, p)
      case Some((v, q)) => Terminated(buf[p..q]) && Payload(buf[p..q]) == v
      case None => forall k :: p <= k < |buf| ==> buf[k] >= 0x80
    decreases |buf| - p
  {
    if p < |buf| {
      if buf[p] < 0x80 {
        assert buf[p..p + 1][1..] == [];
      } else {
        NumberIsThere(buf, p + 1);
        var r := Number(buf, p);
        if r.Some? {
          assert buf[p..r.value.1][1..] == buf[p + 1..r.value.1];
          assert forall k :: 0 < k < r.value.1 - p ==> buf[p..r.value.1][k] == buf[p + 1..r.value.1][k - 1];
        }
      }
    }
  }

  /** The examples of section 7.6 of DWARF 5. */
  lemma StandardExamples()
    ensures Encode(2) == [2] && Encode(127) == [0x7F] && Encode(128) == [0x80, 1] && Encode(129) == [0x81, 1]
    ensures Encode(12857) == [0xB9, 0x64]
  {
    assert Encode(100) == [0x64] && Encode(1) == [1];
    assert 12857 / 0x80 == 100 && 12857 % 0x80 == 0x39;
  }

  /** Reading inverts encoding for every number, with exactly its octets consumed. */
  lemma EncodingRoundTrip(before: seq<Byte>, n: nat, after: seq<Byte>)
    ensures Number(before + Encode(n) + after, |before|) == Some((n, |before| + |Encode(n)|))
  {
    NumberReads(before, Encode(n), after);
  }

  // ---- the walk ------------------------------------------------------------------------

  type Name = seq<Byte>
  type Found = map<Name, nat>

  predicate IsReexport(flags: nat)
  {
    And(flags, 0x08) != 0
  }

  lemma ReexportIsBitThree(flags: nat)
    ensures IsReexport(flags) <==> flags / 8 % 2 == 1
  {
    hide And, Power2;
    Places();
    AndBit(flags, 3);
  }

  /** The first zero octet at or after `p`: buf.index, whose ValueError is nothing here. */
  function ZeroFrom(buf: seq<Byte>, p: nat): (r: Option<nat>)
    ensures r.Some? ==> p <= r.value < |buf|
    decreases |buf| - p
  {
    if p >= |buf| then None else if buf[p] == 0 then Some(p) else ZeroFrom(buf, p + 1)
  }

  /** What a node adds at `prefix`, and where its children's count is; nothing is added before an exception. */
  function AfterTerminal(buf: seq<Byte>, p: nat, prefix: Name, found: Found): Option<(Found, nat)>
  {
    match Number(buf, p)
    case None => None
    case Some((size, q)) =>
      if size == 0 then Some((found, q))
      else
        match Number(buf, q)
        case None => None
        case Some((flags, r)) =>
          if IsReexport(flags) then Some((found, q + size))
          else
            match Number(buf, r)
            case None => None
            case Some((offset, _)) => Some((found[prefix := offset], q + size))
  }

  /**
   * Whether a walk from `p` ends without an exception, and what `found` is when it ends or is thrown.
   * `depth` is how many nested walks the interpreter allows.
   */
  function Walk(buf: seq<Byte>, p: nat, prefix: Name, depth: nat, found: Found): (bool, Found)
    decreases depth, 0
  {
    if depth == 0 then (false, found)
    else
      match AfterTerminal(buf, p, prefix, found)
      case None => (false, found)
      case Some((now, at)) =>
        if at >= |buf| then (false, now) else WalkEdges(buf, at + 1, buf[at], prefix, depth - 1, now)
  }

  function WalkEdges(buf: seq<Byte>, p: nat, count: nat, prefix: Name, depth: nat, found: Found): (bool, Found)
    decreases depth, count
  {
    if count == 0 then (true, found)
    else
      match ZeroFrom(buf, p)
      case None => (false, found)
      case Some(end) =>
        match Number(buf, end + 1)
        case None => (false, found)
        case Some((child, next)) =>
          var (ok, now) := Walk(buf, child, prefix + buf[p..end], depth, found);
          if !ok then (false, now) else WalkEdges(buf, next, count - 1, prefix, depth, now)
  }

  class Walker {
    const buf: seq<Byte>
    var found: Found

    constructor (bytes: seq<Byte>)
      ensures buf == bytes && found == map[]
    {
      buf, found := bytes, map[];
    }

    method IndexOfZero(start: nat) returns (r: Option<nat>)
      ensures r == ZeroFrom(buf, start)
    {
      var p := start;
      while p < |buf|
        invariant p >= start && ZeroFrom(buf, start) == ZeroFrom(buf, p)
      {
        if buf[p] == 0 {
          return Some(p);
        }
        p := p + 1;
      }
      return None;
    }

    method Terminal(p: nat, prefix: Name) returns (at: Option<nat>)
      modifies this
      ensures match AfterTerminal(buf, p, prefix, old(found))
        case None => at == None && found == old(found)
        case Some((now, next)) => at == Some(next) && found == now
    {
      var size := ReadUleb(buf, p);
      if size == None {
        return None;
      }
      var q := size.value.1;
      if size.value.0 != 0 {
        var flags := ReadUleb(buf, q);
        if flags == None {
          return None;
        }
        if !IsReexport(flags.value.0) {
          var offset := ReadUleb(buf, flags.value.1);
          if offset == None {
            return None;
          }
          found := found[prefix := offset.value.0];
        }
      }
      return Some(q + size.value.0);
    }

    /** walk: false when an exception ended it. */
    method Visit(p: nat, prefix: Name, depth: nat) returns (ok: bool)
      modifies this
      ensures (ok, found) == Walk(buf, p, prefix, depth, old(found))
      decreases depth, 0
    {
      hide AfterTerminal, WalkEdges;
      if depth == 0 {
        return false;
      }
      var at := Terminal(p, prefix);
      if at == None || at.value >= |buf| {
        return false;
      }
      ok := VisitEdges(at.value + 1, buf[at.value], prefix, depth - 1);
    }

    /** The loop over a node's children. */
    method VisitEdges(start: nat, count: nat, prefix: Name, depth: nat) returns (ok: bool)
      modifies this
      ensures (ok, found) == WalkEdges(buf, start, count, prefix, depth, old(found))
      decreases depth, count
    {
      hide Walk, ZeroFrom, Number;
      ghost var all := WalkEdges(buf, start, count, prefix, depth, found);
      var p := start;
      for i := 0 to count
        invariant all == WalkEdges(buf, p, count - i, prefix, depth, found)
      {
        var end := IndexOfZero(p);
        if end == None {
          return false;
        }
        var edge := buf[p..end.value];
        var child := ReadUleb(buf, end.value + 1);
        if child == None {
          return false;
        }
        p := child.value.1;
        ok := Visit(child.value.0, prefix + edge, depth);
        if !ok {
          return;
        }
      }
      return true;
    }
  }

  // ---- the tries a buffer can hold -----------------------------------------------------

  /** A node's own export: its encoded numbers, and whatever else its declared size covers. */
  datatype Terminal =
    | Nothing
    | Reexport(flags: Uleb, more: seq<Byte>)
    | Export(flags: Uleb, offset: Uleb, more: seq<Byte>)

  datatype Trie = Node(size: Uleb, terminal: Terminal, edges: seq<Edge>)

  /** A labelled edge, and the position where its child is laid out. */
  datatype Edge = Edge(text: Name, at: Uleb, child: Trie)

  function TerminalBytes(t: Terminal): seq<Byte>
  {
    match t
    case Nothing => []
    case Reexport(flags, more) => flags + more
    case Export(flags, offset, more) => flags + offset + more
  }

  function EdgeBytes(edges: seq<Edge>): seq<Byte>
  {
    if edges == [] then [] else edges[0].text + [0] + edges[0].at + EdgeBytes(edges[1..])
  }

  function NodeBytes(t: Trie): seq<Byte>
    requires |t.edges| < 0x100
  {
    t.size + TerminalBytes(t.terminal) + [|t.edges|] + EdgeBytes(t.edges)
  }

  /** A node says what it holds: its size is its terminal's, its flags agree, and no label has a zero. */
  predicate WellFormed(t: Trie)
  {
    && |t.edges| < 0x100
    && Payload(t.size) == |TerminalBytes(t.terminal)|
    && (t.terminal.Reexport? ==> IsReexport(Payload(t.terminal.flags)))
    && (t.terminal.Export? ==> !IsReexport(Payload(t.terminal.flags)))
    && (forall k :: 0 <= k < |t.edges| ==> 0 !in t.edges[k].text)
  }

  /** `bytes` stand at position `p`. */
  predicate Holds(buf: seq<Byte>, p: nat, bytes: seq<Byte>)
  {
    p + |bytes| <= |buf| && buf[p..p + |bytes|] == bytes
  }

  /** The buffer lays out `t` at `p`, its nodes anywhere and in any order, shared or not. */
  predicate Represents(buf: seq<Byte>, p: nat, t: Trie)
    decreases t
  {
    && WellFormed(t)
    && Holds(buf, p, NodeBytes(t))
    && forall k :: 0 <= k < |t.edges| ==> Represents(buf, Payload(t.edges[k].at), t.edges[k].child)
  }

  /** The names exported below `t`, entered after those in `found` in the order of the walk. */
  function Collect(t: Trie, prefix: Name, found: Found): Found
    decreases t, |t.edges| + 2
  {
    var now := if t.terminal.Export? then found[prefix := Payload(t.terminal.offset)] else found;
    CollectEdges(t, 0, prefix, now)
  }

  function CollectEdges(t: Trie, k: nat, prefix: Name, found: Found): Found
    requires k <= |t.edges|
    decreases t, |t.edges| - k + 1
  {
    if k == |t.edges| then found
    else
      var e := t.edges[k];
      CollectEdges(t, k + 1, prefix, Collect(e.child, prefix + e.text, found))
  }

  /** How many nested walks a trie takes. */
  function Height(t: Trie): nat
    decreases t, |t.edges| + 2
  {
    1 + EdgesHeight(t, 0)
  }

  function EdgesHeight(t: Trie, k: nat): nat
    requires k <= |t.edges|
    decreases t, |t.edges| - k + 1
  {
    if k == |t.edges| then 0
    else
      var here, rest := Height(t.edges[k].child), EdgesHeight(t, k + 1);
      if here < rest then rest else here
  }

  // ---- the walk finds exactly what the trie exports ------------------------------------

  lemma HoldsParts(buf: seq<Byte>, p: nat, a: seq<Byte>, b: seq<Byte>)
    ensures Holds(buf, p, a + b) <==> Holds(buf, p, a) && Holds(buf, p + |a|, b)
  {
    if p + |a + b| <= |buf| {
      var s := buf[p..p + |a + b|];
      assert s[..|a|] == buf[p..p + |a|] && s[|a|..] == buf[p + |a|..p + |a| + |b|];
      assert s == s[..|a|] + s[|a|..];
      assert (a + b)[..|a|] == a && (a + b)[|a|..] == b;
    }
  }

  lemma NumberAt(buf: seq<Byte>, p: nat, s: Uleb)
    requires Holds(buf, p, s)
    ensures Number(buf, p) == Some((Payload(s), p + |s|))
  {
    assert buf[..p] + s + buf[p + |s|..] == buf;
    NumberReads(buf[..p], s, buf[p + |s|..]);
  }

  lemma {:induction false} ZeroAfter(buf: seq<Byte>, p: nat, text: Name)
    requires 0 !in text && Holds(buf, p, text + [0])
    ensures ZeroFrom(buf, p) == Some(p + |text|) && buf[p..p + |text|] == text
    decreases |text|
  {
    HoldsParts(buf, p, text, [0]);
    assert buf[p + |text|..p + |text| + 1][0] == buf[p + |text|];
    if text != [] {
      assert buf[p] == buf[p..p + |text|][0] == text[0];
      assert [text[0]] + (text[1..] + [0]) == text + [0];
      HoldsParts(buf, p, [text[0]], text[1..] + [0]);
      ZeroAfter(buf, p + 1, text[1..]);
    }
  }

  lemma TerminalReads(buf: seq<Byte>, p: nat, t: Trie, prefix: Name, found: Found)
    requires WellFormed(t) && Holds(buf, p, t.size + TerminalBytes(t.terminal))
    ensures AfterTerminal(buf, p, prefix, found)
         == Some((if t.terminal.Export? then found[prefix := Payload(t.terminal.offset)] else found,
                  p + |t.size| + |TerminalBytes(t.terminal)|))
  {
    hide Number, Payload, Holds, IsReexport;
    var q := p + |t.size|;
    HoldsParts(buf, p, t.size, TerminalBytes(t.terminal));
    NumberAt(buf, p, t.size);
    match t.terminal
    case Nothing =>
    case Reexport(flags, more) =>
      HoldsParts(buf, q, flags, more);
      NumberAt(buf, q, flags);
    case Export(flags, offset, more) =>
      HoldsParts(buf, q, flags + offset, more);
      HoldsParts(buf, q, flags, offset);
      NumberAt(buf, q, flags);
      NumberAt(buf, q + |flags|, offset);
  }

  lemma EdgeReads(buf: seq<Byte>, p: nat, edges: seq<Edge>)
    requires edges != [] && 0 !in edges[0].text && Holds(buf, p, EdgeBytes(edges))
    ensures var e := edges[0]; var end := p + |e.text|;
      && ZeroFrom(buf, p) == Some(end) && buf[p..end] == e.text
      && Number(buf, end + 1) == Some((Payload(e.at), end + 1 + |e.at|))
      && Holds(buf, end + 1 + |e.at|, EdgeBytes(edges[1..]))
  {
    hide Number, Payload, Holds, ZeroFrom;
    var e := edges[0];
    var end := p + |e.text|;
    HoldsParts(buf, p, e.text + [0] + e.at, EdgeBytes(edges[1..]));
    HoldsParts(buf, p, e.text + [0], e.at);
    NumberAt(buf, end + 1, e.at);
    ZeroAfter(buf, p, e.text);
    assert buf[p..end] == e.text;
  }

  /**
   * On a buffer that lays out a trie, the walk ends with exactly the trie's exports entered, unless
   * the trie is deeper than the interpreter's recursion limit.
   */
  lemma {:induction false} WalkCollects(buf: seq<Byte>, p: nat, t: Trie, prefix: Name, depth: nat, found: Found)
    requires Represents(buf, p, t)
    ensures var (ok, now) := Walk(buf, p, prefix, depth, found);
      (ok <==> Height(t) <= depth) && (ok ==> now == Collect(t, prefix, found))
    decreases t, |t.edges| + 2
  {
    hide Holds, AfterTerminal, WellFormed, EdgeBytes, TerminalBytes, WalkEdges, CollectEdges, EdgesHeight;
    if depth > 0 {
      var head := t.size + TerminalBytes(t.terminal);
      var at := p + |head|;
      assert |t.edges| < 0x100 by { NodeFits(t); }
      assert Holds(buf, p, head + [|t.edges|] + EdgeBytes(t.edges));
      HoldsParts(buf, p, head + [|t.edges|], EdgeBytes(t.edges));
      HoldsParts(buf, p, head, [|t.edges|]);
      TerminalReads(buf, p, t, prefix, found);
      OctetAt(buf, at, |t.edges|);
      var now := if t.terminal.Export? then found[prefix := Payload(t.terminal.offset)] else found;
      assert t.edges[0..] == t.edges;
      EdgesCollect(buf, p, at + 1, t, 0, prefix, depth - 1, now);
    }
  }

  lemma NodeFits(t: Trie)
    requires WellFormed(t)
    ensures |t.edges| < 0x100
  {
  }

  lemma OctetAt(buf: seq<Byte>, p: nat, b: Byte)
    requires Holds(buf, p, [b])
    ensures p < |buf| && buf[p] == b
  {
    assert buf[p..p + 1][0] == buf[p];
  }

  lemma {:induction false} EdgesCollect(buf: seq<Byte>, root: nat, p: nat, t: Trie, k: nat, prefix: Name, depth: nat,
                                        found: Found)
    requires Represents(buf, root, t) && k <= |t.edges|
    requires Holds(buf, p, EdgeBytes(t.edges[k..]))
    ensures var (ok, now) := WalkEdges(buf, p, |t.edges| - k, prefix, depth, found);
      (ok <==> EdgesHeight(t, k) <= depth) && (ok ==> now == CollectEdges(t, k, prefix, found))
    decreases t, |t.edges| - k + 1
  {
    hide Holds, NodeBytes, EdgeBytes, TerminalBytes, Walk, Collect, Height;
    if k < |t.edges| {
      var e := t.edges[k];
      EdgeReads(buf, p, t.edges[k..]);
      assert t.edges[k..][1..] == t.edges[k + 1..];
      var next := p + |e.text| + 1 + |e.at|;
      WalkCollects(buf, Payload(e.at), e.child, prefix + e.text, depth, found);
      EdgesCollect(buf, root, next, t, k + 1, prefix, depth, Collect(e.child, prefix + e.text, found));
    }
  }

  // ---- what the trie exports: the walk against the lookup -------------------------------

  /** The offset `name` is exported with: the lookup that follows the one edge that matches. */
  function Find(t: Trie, name: Name): Option<nat>
    decreases t, |t.edges| + 2
  {
    if name == [] then (if t.terminal.Export? then Some(Payload(t.terminal.offset)) else None)
    else FindFrom(t, 0, name)
  }

  function FindFrom(t: Trie, k: nat, name: Name): Option<nat>
    requires k <= |t.edges|
    decreases t, |t.edges| - k + 1
  {
    if k == |t.edges| then None
    else
      var e := t.edges[k];
      if e.text <= name then Find(e.child, name[|e.text|..]) else FindFrom(t, k + 1, name)
  }

  /** At every node at most one edge matches: labels are not empty, and none is a prefix of a sibling's. */
  predicate Unambiguous(t: Trie)
    decreases t
  {
    && (forall k :: 0 <= k < |t.edges| ==> t.edges[k].text != [] && Unambiguous(t.edges[k].child))
    && (forall j, k :: 0 <= j < |t.edges| && 0 <= k < |t.edges| && j != k ==> !(t.edges[j].text <= t.edges[k].text))
  }

  function Get(m: Found, n: Name): Option<nat>
  {
    if n in m then Some(m[n]) else None
  }

  function Overlay(found: Found, prefix: Name, n: Name, below: Option<nat>): Option<nat>
  {
    if prefix <= n && below.Some? then below else Get(found, n)
  }

  function Rest(prefix: Name, n: Name): Name
  {
    if prefix <= n then n[|prefix|..] else []
  }

  /** Once an edge matches, no later one does; and no edge matches the empty name. */
  lemma {:induction false} NoLaterMatch(t: Trie, j: nat, k: nat, name: Name)
    requires Unambiguous(t) && j <= k <= |t.edges|
    requires name == [] || (j < k && t.edges[j].text <= name)
    ensures FindFrom(t, k, name) == None
    decreases |t.edges| - k
  {
    if k < |t.edges| {
      NoLaterMatch(t, j, k + 1, name);
    }
  }

  lemma {:induction false} CollectFinds(t: Trie, prefix: Name, found: Found, n: Name)
    requires Unambiguous(t)
    ensures Get(Collect(t, prefix, found), n) == Overlay(found, prefix, n, Find(t, Rest(prefix, n)))
    decreases t, |t.edges| + 2
  {
    hide Payload, FindFrom;
    var now := if t.terminal.Export? then found[prefix := Payload(t.terminal.offset)] else found;
    CollectEdgesFinds(t, 0, prefix, now, n);
    NoLaterMatch(t, 0, 0, []);
    if prefix <= n && Rest(prefix, n) == [] {
      assert n == prefix;
    }
  }

  lemma {:induction false} CollectEdgesFinds(t: Trie, k: nat, prefix: Name, found: Found, n: Name)
    requires Unambiguous(t) && k <= |t.edges|
    ensures Get(CollectEdges(t, k, prefix, found), n) == Overlay(found, prefix, n, FindFrom(t, k, Rest(prefix, n)))
    decreases t, |t.edges| - k + 1
  {
    hide Collect, Find, Get;
    if k < |t.edges| {
      var e := t.edges[k];
      var now := Collect(e.child, prefix + e.text, found);
      CollectFinds(e.child, prefix + e.text, found, n);
      CollectEdgesFinds(t, k + 1, prefix, now, n);
      Longer(prefix, e.text, n);
      if prefix + e.text <= n {
        NoLaterMatch(t, k, k + 1, n[|prefix|..]);
      }
    }
  }

  lemma Longer(prefix: Name, text: Name, n: Name)
    ensures prefix + text <= n <==> prefix <= n && text <= n[|prefix|..]
    ensures prefix + text <= n ==> n[|prefix + text|..] == n[|prefix|..][|text|..]
  {
    if prefix + text <= n {
      assert n[..|prefix|] == (prefix + text)[..|prefix|] == prefix;
      assert n[|prefix|..][..|text|] == (prefix + text)[|prefix|..] == text;
    }
    if prefix <= n && text <= n[|prefix|..] {
      assert n == prefix + n[|prefix|..];
    }
  }

  /**
   * main's walk from offset 0: for any trie with unambiguous edges, however laid out, `found` maps
   * exactly the names the lookup resolves to their offsets, and re-exports are not among them.
   */
  lemma WalkFindsTheExports(buf: seq<Byte>, t: Trie, depth: nat)
    requires Represents(buf, 0, t) && Unambiguous(t)
    ensures var (ok, found) := Walk(buf, 0, [], depth, map[]);
      && (ok <==> Height(t) <= depth)
      && (ok ==> forall n :: Get(found, n) == Find(t, n))
  {
    hide Represents, Walk, Collect, Find, Height, Unambiguous;
    WalkCollects(buf, 0, t, [], depth, map[]);
    var all := Collect(t, [], map[]);
    forall n ensures Get(all, n) == Find(t, n) {
      CollectFinds(t, [], map[], n);
      assert Rest([], n) == n;
      FoundOverNothing(n, Find(t, n));
    }
  }

  lemma FoundOverNothing(n: Name, below: Option<nat>)
    ensures Overlay(map[], [], n, below) == below
  {
  }
}
