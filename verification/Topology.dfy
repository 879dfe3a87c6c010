/**
 Topology discovery from the text the platform exposes: CPU lists such as "0-3,8,10-11", the
 node each CPU is on, and the dense renumbering of packages. Reading the files is left out;
 their contents are parameters.
 */
module Topology {
  import opened Wrappers

  const MAX_NODES: nat := 16
  const U32: nat := 0x1_0000_0000

  // ---- text ----

  /** The characters with the Unicode White_Space property. */
  predicate IsSpace(c: char) {
    || '\U{0009}' <= c <= '\U{000D}' || c == ' ' || c == '\U{0085}' || c == '\U{00A0}' || c == '\U{1680}'
    || '\U{2000}' <= c <= '\U{200A}' || c == '\U{2028}' || c == '\U{2029}' || c == '\U{202F}' || c == '\U{205F}'
    || c == '\U{3000}'
  }

  predicate IsDigit(c: char) { '0' <= c <= '9' }

  function TrimLeft(s: string): string {
    if s != "" && IsSpace(s[0]) then TrimLeft(s[1..]) else s
  }

  function TrimRight(s: string): string {
    if s != "" && IsSpace(s[|s| - 1]) then TrimRight(s[..|s| - 1]) else s
  }

  function Trim(s: string): string { TrimRight(TrimLeft(s)) }

  /** The pieces between commas. */
  function Split(s: string): (parts: seq<string>)
    ensures parts != []
  {
    if s == "" then [""]
    else if s[0] == ',' then [""] + Split(s[1..])
    else var rest := Split(s[1..]); [[s[0]] + rest[0]] + rest[1..]
  }

  datatype Pair = Pair(left: string, right: string)

  /** The text before and after the first hyphen. */
  function SplitOnce(s: string): Option<Pair> {
    if s == "" then None
    else if s[0] == '-' then Some(Pair("", s[1..]))
    else match SplitOnce(s[1..])
      case None => None
      case Some(p) => Some(Pair([s[0]] + p.left, p.right))
  }

  function DigitsFrom(s: string, acc: nat): Option<nat>
    decreases |s|
  {
    if s == "" then Some(acc)
    else if !IsDigit(s[0]) then None
    else DigitsFrom(s[1..], 10 * acc + (s[0] - '0') as nat)
  }

  /** A 32-bit number: an optional plus sign, then digits, not too large. */
  function ParseU32(s: string): Option<nat> {
    var d := if s != "" && s[0] == '+' then s[1..] else s;
    if d == "" then None
    else match DigitsFrom(d, 0)
      case None => None
      case Some(n) => if n < U32 then Some(n) else None
  }

  // ---- CPU lists ----

  /** `a..=b`. */
  function Range(a: nat, b: nat): seq<nat>
    decreases b + 1 - a
  {
    if a > b then [] else [a] + Range(a + 1, b)
  }

  /** The CPUs one piece names; a malformed piece names none. */
  function VisitPart(part: string): seq<nat> {
    if part == "" then []
    else match SplitOnce(part)
      case Some(p) =>
        (match ParseU32(Trim(p.left))
         case None => []
         case Some(a) => match ParseU32(Trim(p.right)) case None => [] case Some(b) => Range(a, b))
      case None => (match ParseU32(Trim(part)) case None => [] case Some(c) => [c])
  }

  function VisitAll(parts: seq<string>): seq<nat> {
    if parts == [] then [] else VisitPart(parts[0]) + VisitAll(parts[1..])
  }

  function Visits(list: string): seq<nat> { VisitAll(Split(Trim(list))) }

  /** Visits `a..=b` one by one. */
  method VisitRange(a: nat, b: nat) returns (visited: seq<nat>)
    ensures visited == Range(a, b)
  {
    visited := [];
    var c := a;
    while c <= b
      invariant a <= c && visited + Range(c, b) == Range(a, b)
      decreases b + 1 - c
    {
      visited := visited + [c];
      c := c + 1;
    }
  }

  method VisitOne(part: string) returns (visited: seq<nat>)
    ensures visited == VisitPart(part)
  {
    visited := [];
    if part == "" { return; }
    var p := SplitOnce(part);
    if p.Some? {
      var a, b := ParseU32(Trim(p.value.left)), ParseU32(Trim(p.value.right));
      if a.Some? && b.Some? { visited := VisitRange(a.value, b.value); }
    } else {
      var c := ParseU32(Trim(part));
      if c.Some? { visited := [c.value]; }
    }
  }

  /** Walks the list piece by piece, visiting each CPU in turn. */
  method ForEachInList(list: string) returns (visited: seq<nat>)
    ensures visited == Visits(list)
  {
    var parts := Split(Trim(list));
    visited := [];
    for i := 0 to |parts|
      invariant visited + VisitAll(parts[i..]) == Visits(list)
    {
      assert parts[i..][0] == parts[i] && parts[i..][1..] == parts[i + 1..];
      var one := VisitOne(parts[i]);
      visited := visited + one;
    }
  }

  // ---- joining pieces ----

  function Join(parts: seq<string>): string
    requires parts != []
  {
    if |parts| == 1 then parts[0] else parts[0] + "," + Join(parts[1..])
  }

  predicate NoComma(s: string) { ',' !in s }

  lemma {:induction false} SplitPlain(s: string, tail: string)
    requires NoComma(s)
    ensures Split(s + "," + tail) == [s] + Split(tail)
    ensures Split(s) == [s]
  {
    if s == "" {
      assert s + "," + tail == "," + tail;
      assert ("," + tail)[1..] == tail;
    } else {
      assert (s + "," + tail)[1..] == s[1..] + "," + tail;
      SplitPlain(s[1..], tail);
      assert [s[0]] + s[1..] == s;
    }
  }

  lemma {:induction false} SplitJoin(parts: seq<string>)
    requires parts != [] && forall i :: 0 <= i < |parts| ==> NoComma(parts[i])
    ensures Split(Join(parts)) == parts
  {
    if |parts| == 1 {
      SplitPlain(parts[0], "");
    } else {
      SplitPlain(parts[0], Join(parts[1..]));
      SplitJoin(parts[1..]);
    }
  }

  // Space around a piece does not matter.

  lemma TrimLeftCons(c: char, s: string)
    requires IsSpace(c)
    ensures TrimLeft([c] + s) == TrimLeft(s) && Trim([c] + s) == Trim(s)
  {
  }

  lemma {:induction false} TrimLeftSnoc(s: string, c: char)
    requires IsSpace(c)
    ensures TrimLeft(s + [c]) == if TrimLeft(s) == "" then "" else TrimLeft(s) + [c]
  {
    if s == "" {
      assert s + [c] == [c];
      assert [c][1..] == "";
    } else if IsSpace(s[0]) {
      assert (s + [c])[1..] == s[1..] + [c];
      TrimLeftSnoc(s[1..], c);
    }
  }

  lemma TrimSnoc(s: string, c: char)
    requires IsSpace(c)
    ensures Trim(s + [c]) == Trim(s)
  {
    TrimLeftSnoc(s, c);
    var t := TrimLeft(s);
    assert (t + [c])[..|t|] == t;
  }

  lemma {:induction false} SplitOnceSnoc(s: string, c: char)
    requires IsSpace(c)
    ensures SplitOnce(s + [c]) ==
            match SplitOnce(s) case None => None case Some(p) => Some(Pair(p.left, p.right + [c]))
  {
    if s == "" {
      assert s + [c] == [c];
      assert [c][1..] == "";
    } else {
      assert (s + [c])[1..] == s[1..] + [c];
      if s[0] != '-' { SplitOnceSnoc(s[1..], c); }
    }
  }

  lemma PartTrimLeft(c: char, s: string)
    requires IsSpace(c)
    ensures VisitPart([c] + s) == VisitPart(s)
  {
    assert ([c] + s)[1..] == s;
    TrimLeftCons(c, s);
    if s == "" { assert Trim([c] + s) == "" && SplitOnce([c] + s) == None; }
    if s != "" && SplitOnce(s).Some? { TrimLeftCons(c, SplitOnce(s).value.left); }
  }

  lemma PartTrimRight(s: string, c: char)
    requires IsSpace(c)
    ensures VisitPart(s + [c]) == VisitPart(s)
  {
    SplitOnceSnoc(s, c);
    TrimSnoc(s, c);
    if SplitOnce(s).Some? { TrimSnoc(SplitOnce(s).value.right, c); }
  }

  lemma {:induction false} ListTrimLeft(s: string)
    ensures VisitAll(Split(TrimLeft(s))) == VisitAll(Split(s))
  {
    if s != "" && IsSpace(s[0]) {
      ListTrimLeft(s[1..]);
      var rest := Split(s[1..]);
      PartTrimLeft(s[0], rest[0]);
      assert Split(s)[0] == [s[0]] + rest[0] && Split(s)[1..] == rest[1..];
    }
  }

  /** Adding a space at the end adds it to the last piece. */
  lemma {:induction false} SplitSnoc(s: string, c: char)
    requires IsSpace(c)
    ensures var p := Split(s); Split(s + [c]) == p[..|p| - 1] + [p[|p| - 1] + [c]]
  {
    if s == "" {
      assert s + [c] == [c];
      assert [c][1..] == "" && [c] + "" == [c];
      assert Split([c]) == [[c]];
    } else {
      assert (s + [c])[1..] == s[1..] + [c];
      SplitSnoc(s[1..], c);
      var q := Split(s[1..]);
      if s[0] != ',' && |q| == 1 { assert [s[0]] + (q[0] + [c]) == [s[0]] + q[0] + [c]; }
    }
  }

  lemma {:induction false} VisitAllLast(init: seq<string>, last: string)
    ensures VisitAll(init + [last]) == VisitAll(init) + VisitPart(last)
  {
    if init == [] {
      assert init + [last] == [last];
    } else {
      assert (init + [last])[1..] == init[1..] + [last];
      VisitAllLast(init[1..], last);
    }
  }

  lemma {:induction false} ListTrimRight(s: string)
    ensures VisitAll(Split(TrimRight(s))) == VisitAll(Split(s))
  {
    if s != "" && IsSpace(s[|s| - 1]) {
      var init, c := s[..|s| - 1], s[|s| - 1];
      assert s == init + [c];
      ListTrimRight(init);
      SplitSnoc(init, c);
      var p := Split(init);
      var last := p[|p| - 1];
      assert p == p[..|p| - 1] + [last];
      VisitAllLast(p[..|p| - 1], last);
      VisitAllLast(p[..|p| - 1], last + [c]);
      PartTrimRight(last, c);
    }
  }

  /** A comma-joined list names the CPUs of its pieces, in order; malformed pieces name none. */
  lemma VisitsOfJoin(parts: seq<string>)
    requires parts != [] && forall i :: 0 <= i < |parts| ==> NoComma(parts[i])
    ensures Visits(Join(parts)) == VisitAll(parts)
  {
    var s := Join(parts);
    ListTrimRight(TrimLeft(s));
    ListTrimLeft(s);
    SplitJoin(parts);
  }

  // ---- rendering and reading back ----

  function DigitChar(d: nat): char
    requires d < 10
  {
    '0' + (d as char)
  }

  function Render(n: nat): (s: string)
    ensures s != "" && forall i :: 0 <= i < |s| ==> IsDigit(s[i])
  {
    if n < 10 then [DigitChar(n)] else Render(n / 10) + [DigitChar(n % 10)]
  }

  lemma {:induction false} DigitsSnoc(s: string, d: nat, acc: nat)
    requires d < 10 && DigitsFrom(s, acc).Some?
    ensures DigitsFrom(s + [DigitChar(d)], acc) == Some(10 * DigitsFrom(s, acc).value + d)
    decreases |s|
  {
    if s == "" {
      assert s + [DigitChar(d)] == [DigitChar(d)];
      assert [DigitChar(d)][1..] == "";
    } else {
      assert (s + [DigitChar(d)])[1..] == s[1..] + [DigitChar(d)];
      DigitsSnoc(s[1..], d, 10 * acc + (s[0] - '0') as nat);
    }
  }

  lemma {:induction false} DigitsOfRender(n: nat)
    ensures DigitsFrom(Render(n), 0) == Some(n)
  {
    if n < 10 {
      DigitsSnoc("", n, 0);
      assert "" + [DigitChar(n)] == [DigitChar(n)];
    } else {
      DigitsOfRender(n / 10);
      DigitsSnoc(Render(n / 10), n % 10, 0);
    }
  }

  /** A rendered number reads back as itself, or not at all if it does not fit. */
  lemma ParseOfRender(n: nat)
    ensures ParseU32(Trim(Render(n))) == if n < U32 then Some(n) else None
  {
    DigitsOfRender(n);
    assert Trim(Render(n)) == Render(n);
    assert Render(n)[0] != '+';
  }

  /** One CPU, or the CPUs from `a` to `b`. */
  datatype Piece = One(c: nat) | Between(a: nat, b: nat)

  function RenderPiece(p: Piece): string {
    match p case One(c) => Render(c) case Between(a, b) => Render(a) + "-" + Render(b)
  }

  function CpusOf(p: Piece): seq<nat> { match p case One(c) => [c] case Between(a, b) => Range(a, b) }

  predicate Fits(p: Piece) { match p case One(c) => c < U32 case Between(a, b) => a < U32 && b < U32 }

  lemma {:induction false} SplitOnceAt(s: string, t: string)
    requires '-' !in s
    ensures SplitOnce(s + "-" + t) == Some(Pair(s, t)) && SplitOnce(s) == None
  {
    if s == "" {
      assert s + "-" + t == "-" + t;
      assert ("-" + t)[1..] == t;
    } else {
      assert (s + "-" + t)[1..] == s[1..] + "-" + t;
      SplitOnceAt(s[1..], t);
      assert [s[0]] + s[1..] == s;
    }
  }

  lemma VisitRendered(p: Piece)
    requires Fits(p)
    ensures VisitPart(RenderPiece(p)) == CpusOf(p) && NoComma(RenderPiece(p))
  {
    match p
    case One(c) =>
      SplitOnceAt(Render(c), "");
      ParseOfRender(c);
    case Between(a, b) =>
      SplitOnceAt(Render(a), Render(b));
      ParseOfRender(a);
      ParseOfRender(b);
  }

  function RenderAll(ps: seq<Piece>): seq<string> {
    if ps == [] then [] else [RenderPiece(ps[0])] + RenderAll(ps[1..])
  }

  function AllCpus(ps: seq<Piece>): seq<nat> {
    if ps == [] then [] else CpusOf(ps[0]) + AllCpus(ps[1..])
  }

  lemma {:induction false} VisitAllRendered(ps: seq<Piece>)
    requires forall i :: 0 <= i < |ps| ==> Fits(ps[i])
    ensures VisitAll(RenderAll(ps)) == AllCpus(ps) && |RenderAll(ps)| == |ps|
    ensures forall i :: 0 <= i < |ps| ==> NoComma(RenderAll(ps)[i])
  {
    if ps != [] {
      VisitRendered(ps[0]);
      VisitAllRendered(ps[1..]);
    }
  }

  /** A list written out from CPUs and ranges reads back as exactly those CPUs, in order. */
  lemma CpuListRoundTrip(ps: seq<Piece>)
    requires ps != [] && forall i :: 0 <= i < |ps| ==> Fits(ps[i])
    ensures RenderAll(ps) != [] && Visits(Join(RenderAll(ps))) == AllCpus(ps)
  {
    VisitAllRendered(ps);
    VisitsOfJoin(RenderAll(ps));
  }

  // ---- CPU to node ----

  /** The last of the first `upto` nodes whose list names CPU `c`. */
  function LastNaming(lists: seq<Option<string>>, upto: nat, c: nat): Option<nat>
    requires upto <= |lists|
  {
    if upto == 0 then None
    else match lists[upto - 1]
      case Some(list) => if c in Visits(list) then Some(upto - 1) else LastNaming(lists, upto - 1, c)
      case None => LastNaming(lists, upto - 1, c)
  }

  /** It is a node that names the CPU, no later node does, and there is none exactly if no node does. */
  lemma {:induction false} LastNamingIsLast(lists: seq<Option<string>>, upto: nat, c: nat)
    requires upto <= |lists|
    ensures match LastNaming(lists, upto, c)
            case Some(k) => k < upto && Names(lists, k, c) && forall j: nat :: k < j < upto ==> !Names(lists, j, c)
            case None => forall j: nat :: j < upto ==> !Names(lists, j, c)
  {
    hide Visits;
    if upto > 0 { LastNamingIsLast(lists, upto - 1, c); }
  }

  predicate Names(lists: seq<Option<string>>, k: nat, c: nat)
    requires k < |lists|
  {
    lists[k].Some? && c in Visits(lists[k].value)
  }

  ghost predicate Mapped(lists: seq<Option<string>>, upto: nat, node: seq<nat>, seen: seq<bool>)
    requires upto <= |lists|
  {
    |node| == |seen| &&
    forall c :: 0 <= c < |node| ==>
      (seen[c] <==> LastNaming(lists, upto, c).Some?) && node[c] == (if seen[c] then LastNaming(lists, upto, c).value else 0)
  }

  /** Records `k` for every in-range CPU of `cpus`. */
  method Record(node: seq<nat>, seen: seq<bool>, k: nat, cpus: seq<nat>) returns (node': seq<nat>, seen': seq<bool>)
    requires |node| == |seen|
    ensures |node'| == |seen'| == |node|
    ensures forall c :: 0 <= c < |node| ==>
              if c in cpus then node'[c] == k && seen'[c] else node'[c] == node[c] && seen'[c] == seen[c]
  {
    node', seen' := node, seen;
    for i := 0 to |cpus|
      invariant |node'| == |seen'| == |node|
      invariant forall c :: 0 <= c < |node| ==>
                  if c in cpus[..i] then node'[c] == k && seen'[c] else node'[c] == node[c] && seen'[c] == seen[c]
    {
      assert cpus[..i + 1] == cpus[..i] + [cpus[i]];
      if cpus[i] < |node| {
        node' := node'[cpus[i] := k];
        seen' := seen'[cpus[i] := true];
      }
    }
    assert cpus[..|cpus|] == cpus;
  }

  /** Reads each node's list in turn; a later node overrides an earlier one. */
  method ReadCpuNodes(n: nat, lists: seq<Option<string>>) returns (r: Option<(seq<nat>, seq<bool>)>)
    requires |lists| == MAX_NODES
    ensures r.None? <==> forall k :: 0 <= k < MAX_NODES ==> lists[k].None?
    ensures r.Some? ==> |r.value.0| == n && Mapped(lists, MAX_NODES, r.value.0, r.value.1)
  {
    hide Visits;
    var node, seen := seq(n, _ => 0), seq(n, _ => false);
    var any := false;
    for k := 0 to MAX_NODES
      invariant |node| == n && Mapped(lists, k, node, seen)
      invariant any <==> exists j :: 0 <= j < k && lists[j].Some?
    {
      if lists[k].Some? {
        any := true;
        var cpus := ForEachInList(lists[k].value);
        node, seen := Record(node, seen, k, cpus);
      }
    }
    return if any then Some((node, seen)) else None;
  }

  // ---- dense package numbers ----

  /** Numbers that tell CPUs apart exactly as the package ids do, with none skipped. */
  ghost predicate Dense(ids: seq<nat>, llc: seq<nat>, count: nat) {
    && |llc| == |ids|
    && (forall c :: 0 <= c < |llc| ==> llc[c] < count)
    && (forall c, d :: 0 <= c < |llc| && 0 <= d < |llc| ==> (llc[c] == llc[d] <==> ids[c] == ids[d]))
    && forall k: nat :: k < count ==> k in llc
  }

  function Readable(ids: seq<Option<nat>>): (r: seq<nat>)
    requires forall c :: 0 <= c < |ids| ==> ids[c].Some?
    ensures |r| == |ids| && forall c :: 0 <= c < |ids| ==> r[c] == ids[c].value
  {
    seq(|ids|, c requires 0 <= c < |ids| => ids[c].value)
  }

  method Position(seen: seq<nat>, id: nat) returns (r: Option<nat>)
    ensures r.Some? ==> r.value < |seen| && seen[r.value] == id
    ensures r.None? ==> id !in seen
  {
    for i := 0 to |seen|
      invariant id !in seen[..i]
    {
      if seen[i] == id { return Some(i); }
      assert seen[..i + 1] == seen[..i] + [seen[i]];
    }
    assert seen[..|seen|] == seen;
    return None;
  }

  /** Renumbers package ids in order of first appearance; fails if any is unreadable. */
  method ReadCpuLlc(ids: seq<Option<nat>>) returns (r: Option<seq<nat>>, ghost count: nat)
    ensures r.Some? <==> forall c :: 0 <= c < |ids| ==> ids[c].Some?
    ensures r.Some? ==> Dense(Readable(ids), r.value, count)
  {
    var llc: seq<nat> := [];
    var seen: seq<nat> := [];
    for c := 0 to |ids|
      invariant |llc| == c && forall d :: 0 <= d < c ==> ids[d].Some?
      invariant forall i, j :: 0 <= i < j < |seen| ==> seen[i] != seen[j]
      invariant forall d :: 0 <= d < c ==> llc[d] < |seen| && seen[llc[d]] == ids[d].value
      invariant forall k: nat :: k < |seen| ==> k in llc
    {
      if ids[c].None? { return None, 0; }
      var id := ids[c].value;
      var p := Position(seen, id);
      var dense := 0;
      if p.Some? {
        dense := p.value;
      } else {
        seen := seen + [id];
        dense := |seen| - 1;
      }
      llc := llc + [dense];
    }
    return Some(llc), |seen|;
  }
}
