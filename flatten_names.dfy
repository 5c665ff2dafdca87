/**
 * The string ids of direct-graph nodes and of finally paths.  A node is named after its
 * statement's id, with a suffix for the role it plays: none for a statement's own node,
 * `_tail`, `_cond`, `_init`, `_inc` or `_try`.  The model keys nodes by the pair (statement
 * id, role); the lemmas here show that the string names determine that pair, so keying by
 * pair and keying by name agree.
 */
module FlattenNames {
  import opened Exprents

  datatype Role = Direct | Tail | Cond | Init | Inc | Try

  /** A direct-graph node id. */
  datatype NodeId = NodeId(stat: int, role: Role)

  function DigitChar(d: int): (c: char)
    requires 0 <= d < 10
    ensures IsDigit(c)
  {
    ('0' as int + d) as char
  }

  /** `Integer.toString` of a non-negative number. */
  function NatToString(n: nat): (r: string)
    ensures |r| > 0
    ensures forall i :: 0 <= i < |r| ==> IsDigit(r[i])
  {
    if n < 10 then [DigitChar(n)] else NatToString(n / 10) + [DigitChar(n % 10)]
  }

  /** `Integer.toString`. */
  function IntToString(i: int): (r: string)
    ensures |r| > 0
    ensures forall k :: 0 <= k < |r| ==> r[k] == '-' || IsDigit(r[k])
  {
    if i < 0 then "-" + NatToString(-i) else NatToString(i)
  }

  function RoleSuffix(role: Role): string
  {
    match role
    case Direct => ""
    case Tail => "_tail"
    case Cond => "_cond"
    case Init => "_init"
    case Inc => "_inc"
    case Try => "_try"
  }

  /** The node's `id` string. */
  function NodeName(n: NodeId): string
  {
    IntToString(n.stat) + RoleSuffix(n.role)
  }

  /** `c` does not occur in `s`. */
  predicate Free(s: string, c: char)
  {
    forall i :: 0 <= i < |s| ==> s[i] != c
  }

  /** `s` is empty or starts with `c`. */
  predicate Led(s: string, c: char)
  {
    |s| == 0 || s[0] == c
  }

  lemma {:induction false} NatToStringShort(n: nat)
    ensures |NatToString(n)| == 1 <==> n < 10
  {
    if n >= 10 {
      assert |NatToString(n)| == |NatToString(n / 10)| + 1;
    }
  }

  lemma {:induction false} NatToStringInjective(a: nat, b: nat)
    requires NatToString(a) == NatToString(b)
    ensures a == b
  {
    NatToStringShort(a);
    NatToStringShort(b);
    if a >= 10 {
      var sa, sb := NatToString(a), NatToString(b);
      var pa, pb := NatToString(a / 10), NatToString(b / 10);
      assert sa == pa + [DigitChar(a % 10)];
      assert sb == pb + [DigitChar(b % 10)];
      assert |pa| == |pb|;
      assert sa[|pa|] == DigitChar(a % 10) && sb[|pb|] == DigitChar(b % 10);
      assert pa == sa[..|pa|] && pb == sb[..|pb|];
      NatToStringInjective(a / 10, b / 10);
    }
  }

  /** `Integer.toString` starts with a minus sign exactly for negative numbers. */
  lemma IntToStringSign(i: int)
    ensures IntToString(i)[0] == '-' <==> i < 0
  {
    if i >= 0 {
      assert IsDigit(NatToString(i)[0]);
    }
  }

  /** `Integer.toString` is injective. */
  lemma {:induction false} IntToStringInjective(a: int, b: int)
    requires IntToString(a) == IntToString(b)
    ensures a == b
  {
    IntToStringSign(a);
    IntToStringSign(b);
    if a < 0 {
      var sa, sb := IntToString(a), IntToString(b);
      assert NatToString(-a) == sa[1..] && NatToString(-b) == sb[1..];
      NatToStringInjective(-a, -b);
    } else {
      NatToStringInjective(a, b);
    }
  }

  /** The position of the first `c` in `z`, or `|z|` when there is none. */
  function FirstOf(z: string, c: char): (r: nat)
    ensures r <= |z|
  {
    if |z| == 0 || z[0] == c then 0 else 1 + FirstOf(z[1..], c)
  }

  lemma {:induction false} FirstOfSplit(x: string, s: string, c: char)
    requires Free(x, c) && Led(s, c)
    ensures FirstOf(x + s, c) == |x|
  {
    if |x| > 0 {
      assert (x + s)[0] == x[0];
      assert (x + s)[1..] == x[1..] + s;
      FirstOfSplit(x[1..], s, c);
    } else {
      assert x + s == s;
    }
  }

  /** Where neither head contains `c` and both tails are empty or start with `c`, the
    * concatenation splits uniquely. */
  lemma {:induction false} SplitAt(x: string, s: string, y: string, t: string, c: char)
    requires x + s == y + t
    requires Free(x, c) && Free(y, c) && Led(s, c) && Led(t, c)
    ensures x == y && s == t
  {
    FirstOfSplit(x, s, c);
    FirstOfSplit(y, t, c);
    assert x == (x + s)[..|x|] && y == (y + t)[..|y|];
    assert s == (x + s)[|x|..] && t == (y + t)[|y|..];
  }

  lemma IntToStringFree(i: int, c: char)
    requires c == '_' || c == ':'
    ensures Free(IntToString(i), c)
  {
  }

  /** Reads the role back from a suffix. */
  function SuffixRole(s: string): Role
  {
    if |s| == 0 then Direct
    else if |s| < 2 then Direct
    else if |s| == 4 then (if s[1] == 'i' then Inc else Try)
    else if s[1] == 't' then Tail
    else if s[1] == 'c' then Cond
    else Init
  }

  lemma RoleSuffixDecodes(r: Role)
    ensures SuffixRole(RoleSuffix(r)) == r
    ensures |RoleSuffix(r)| <= 5
  {
  }

  lemma {:induction false} RoleSuffixInjective(a: Role, b: Role)
    requires RoleSuffix(a) == RoleSuffix(b)
    ensures a == b
  {
    RoleSuffixDecodes(a);
    RoleSuffixDecodes(b);
  }

  /** Distinct nodes have distinct names. */
  lemma {:induction false} NodeNameInjective(a: NodeId, b: NodeId)
    requires NodeName(a) == NodeName(b)
    ensures a == b
  {
    IntToStringFree(a.stat, '_');
    IntToStringFree(b.stat, '_');
    SplitAt(IntToString(a.stat), RoleSuffix(a.role), IntToString(b.stat), RoleSuffix(b.role), '_');
    IntToStringInjective(a.stat, b.stat);
    RoleSuffixInjective(a.role, b.role);
  }

  /** `graph.nodes.getWithKey(node.id + "_tail")` of an if statement's head node: the name
    * `node.id + "_tail"` is a node's name exactly when `node` is a statement's own node and
    * the other is that statement's tail node. */
  lemma {:induction false} TailName(n: NodeId, m: NodeId)
    ensures NodeName(n) + "_tail" == NodeName(m) <==> n.role == Direct && m == NodeId(n.stat, Tail)
  {
    var x, y := IntToString(n.stat), IntToString(m.stat);
    var sn, sm := RoleSuffix(n.role), RoleSuffix(m.role);
    assert NodeName(n) + "_tail" == x + (sn + "_tail");
    if NodeName(n) + "_tail" == NodeName(m) {
      IntToStringFree(n.stat, '_');
      IntToStringFree(m.stat, '_');
      SplitAt(x, sn + "_tail", y, sm, '_');
      IntToStringInjective(n.stat, m.stat);
      RoleSuffixDecodes(n.role);
      RoleSuffixDecodes(m.role);
      assert |sn| == 0;
      assert sm == sn + "_tail" == "_tail";
    }
    if n.role == Direct && m == NodeId(n.stat, Tail) {
      assert NodeName(n) == x;
    }
  }

  /** `FinallyPathWrapper`: the source, destination and entry node of a path through a
    * finally handler. */
  datatype FinallyPathWrapper = FinallyPathWrapper(source: NodeId, destination: NodeId, entry: NodeId)

  /** The string `equals` and `hashCode` compare: `source + ":" + destination + ":" + entry`. */
  function PathKey(w: FinallyPathWrapper): string
  {
    NodeName(w.source) + (":" + (NodeName(w.destination) + (":" + NodeName(w.entry))))
  }

  lemma NodeNameFree(n: NodeId)
    ensures Free(NodeName(n), ':')
  {
    IntToStringFree(n.stat, ':');
  }

  /** Splitting `x + ":" + r` at its first colon. */
  lemma {:induction false} SplitColon(x1: string, r1: string, x2: string, r2: string)
    requires x1 + (":" + r1) == x2 + (":" + r2)
    requires Free(x1, ':') && Free(x2, ':')
    ensures x1 == x2 && r1 == r2
  {
    SplitAt(x1, ":" + r1, x2, ":" + r2, ':');
    assert r1 == (":" + r1)[1..] && r2 == (":" + r2)[1..];
  }

  /** Two path wrappers are `equals` exactly when their three nodes are the same: the ids
    * contain no `:`, so the joined string splits back into its parts. */
  lemma {:induction false} PathKeyIsTriple(a: FinallyPathWrapper, b: FinallyPathWrapper)
    ensures PathKey(a) == PathKey(b) <==> a == b
  {
    if PathKey(a) == PathKey(b) {
      var a2, a3 := NodeName(a.destination), NodeName(a.entry);
      var b2, b3 := NodeName(b.destination), NodeName(b.entry);
      NodeNameFree(a.source);
      NodeNameFree(b.source);
      NodeNameFree(a.destination);
      NodeNameFree(b.destination);
      SplitColon(NodeName(a.source), a2 + (":" + a3), NodeName(b.source), b2 + (":" + b3));
      SplitColon(a2, a3, b2, b3);
      NodeNameInjective(a.source, b.source);
      NodeNameInjective(a.destination, b.destination);
      NodeNameInjective(a.entry, b.entry);
    }
  }

  /** No element twice. */
  predicate NoDups<T(==)>(s: seq<T>)
  {
    forall i, j :: 0 <= i < j < |s| ==> s[i] != s[j]
  }

  /** The first occurrence of each element, in order: one arrangement of
    * `new ArrayList<>(new HashSet<>(s))`. */
  function Dedup<T(==,!new)>(s: seq<T>): (r: seq<T>)
    ensures NoDups(r)
    ensures forall x :: x in r <==> x in s
  {
    if |s| == 0 then []
    else
      var rest := Dedup(s[..|s| - 1]);
      if s[|s| - 1] in rest then
        assert s == s[..|s| - 1] + [s[|s| - 1]];
        rest
      else
        assert s == s[..|s| - 1] + [s[|s| - 1]];
        rest + [s[|s| - 1]]
  }
}
