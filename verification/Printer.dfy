/** The JSON text of a tree (`serialize_node`) and a reader that undoes it. */
module Printer {
  import opened Trees

  function Digit(d: nat): char
    requires d < 10
  {
    "0123456789"[d]
  }

  predicate IsDigit(c: char) {
    '0' <= c <= '9'
  }

  /** Decimal without leading zeros, as a stream prints an unsigned integer. */
  function Decimal(n: nat): (r: string)
    ensures r != [] && forall i :: 0 <= i < |r| ==> IsDigit(r[i])
  {
    if n < 10 then [Digit(n)] else Decimal(n / 10) + [Digit(n % 10)]
  }

  function Text(t: Tree<Id>): string
    decreases t
  {
    "{\"id\":" + Decimal(t.root as int) + ",\"children\":[" + TextAll(t.kids) + "]}"
  }

  /** The children, with a comma between neighbours. */
  function TextAll(f: seq<Tree<Id>>): string
    decreases f
  {
    if f == [] then "" else if |f| == 1 then Text(f[0]) else Text(f[0]) + "," + TextAll(f[1..])
  }

  /** `s` is `start` and the text of the first `i` children; the rest follows it. */
  predicate Joined(start: string, s: string, i: nat, f: seq<Tree<Id>>)
    requires i <= |f|
  {
    start + TextAll(f) == s + (if i == |f| then "" else if i == 0 then TextAll(f) else "," + TextAll(f[i..]))
  }

  lemma JoinNext(start: string, s: string, i: nat, f: seq<Tree<Id>>)
    requires i < |f| && Joined(start, s, i, f)
    ensures Joined(start, (if i > 0 then s + "," else s) + Text(f[i]), i + 1, f)
  {
    assert f[i..][1..] == f[i + 1..] && f[0..] == f;
    var kid, more := Text(f[i]), TextAll(f[i + 1..]);
    if i + 1 < |f| {
      JoinAssoc(s, kid, "," + more);
      assert kid + "," + more == kid + ("," + more);
    } else {
      JoinAssoc(s, kid, "");
      assert kid + "" == kid;
    }
  }

  lemma JoinAssoc(s: string, kid: string, more: string)
    ensures (s + "," + kid) + more == s + ("," + (kid + more))
    ensures (s + kid) + more == s + (kid + more)
  {
  }

  // --------------------------------------------------------------------- reader

  datatype Read<+T> = Bad | Got(value: T, rest: string)

  function Skip(s: string, prefix: string): Option<string> {
    if prefix <= s then Some(s[|prefix|..]) else None
  }

  /** The longest run of digits, as a number on top of `acc`. */
  function ReadDecimal(s: string, acc: nat): (r: (nat, string))
    ensures |r.1| <= |s|
  {
    if s == [] || !IsDigit(s[0]) then (acc, s)
    else ReadDecimal(s[1..], 10 * acc + (s[0] as int - '0' as int))
  }

  function ReadTree(s: string): (r: Read<Tree<Id>>)
    ensures r.Got? ==> |r.rest| < |s|
    decreases |s|, 0
  {
    var a := Skip(s, "{\"id\":");
    if a.None? then Bad
    else
      var (n, b) := ReadDecimal(a.value, 0);
      var c := Skip(b, ",\"children\":[");
      if c.None? || n >= ID_LIMIT then Bad
      else
        var f := if c.value != [] && c.value[0] == ']' then Got([], c.value) else ReadForest(c.value);
        if f.Bad? then Bad
        else
          var d := Skip(f.rest, "]}");
          if d.None? then Bad else Got(Node(n as Id, f.value), d.value)
  }

  function ReadForest(s: string): (r: Read<seq<Tree<Id>>>)
    ensures r.Got? ==> |r.rest| < |s|
    decreases |s|, 1
  {
    var t := ReadTree(s);
    if t.Bad? then Bad
    else if t.rest != [] && t.rest[0] == ',' then
      var f := ReadForest(t.rest[1..]);
      if f.Bad? then Bad else Got([t.value] + f.value, f.rest)
    else Got([t.value], t.rest)
  }

  lemma {:induction false} ReadDecimalAppend(acc: nat, digits: string, rest: string)
    requires forall i :: 0 <= i < |digits| ==> IsDigit(digits[i])
    ensures ReadDecimal(digits + rest, acc) == ReadDecimal(rest, ReadDecimal(digits, acc).0)
    decreases |digits|
  {
    if digits == [] {
      assert digits + rest == rest;
    } else {
      assert (digits + rest)[1..] == digits[1..] + rest;
      ReadDecimalAppend(10 * acc + (digits[0] as int - '0' as int), digits[1..], rest);
    }
  }

  lemma {:induction false} DecimalReads(n: nat)
    ensures ReadDecimal(Decimal(n), 0).0 == n
  {
    if n >= 10 {
      DecimalReads(n / 10);
      ReadDecimalAppend(0, Decimal(n / 10), [Digit(n % 10)]);
      assert [Digit(n % 10)][1..] == [];
    } else {
      assert [Digit(n)][1..] == [];
    }
  }

  lemma DigitOf(c: char)
    requires IsDigit(c)
    ensures var d := c as int - '0' as int; 0 <= d < 10 && Digit(d) == c
  {
    var d := c as int - '0' as int;
    assert d == 0 || d == 1 || d == 2 || d == 3 || d == 4 || d == 5 || d == 6 || d == 7 || d == 8 || d == 9;
  }

  /** There is no leading zero but in zero itself. */
  lemma {:induction false} NoLeadingZero(n: nat)
    ensures Decimal(n)[0] == '0' ==> n == 0 && Decimal(n) == "0"
  {
    if n >= 10 {
      NoLeadingZero(n / 10);
      assert Decimal(n)[0] == Decimal(n / 10)[0];
    }
  }

  /** And so it is the only text of its number: any run of digits without a leading zero is
      what is printed for the number it is read as. */
  lemma {:induction false} DecimalIsTheOnly(d: string)
    requires d != [] && (forall i :: 0 <= i < |d| ==> IsDigit(d[i])) && (d[0] == '0' ==> d == "0")
    ensures Decimal(ReadDecimal(d, 0).0) == d
    decreases |d|
  {
    var p, c := d[..|d| - 1], d[|d| - 1];
    assert d == p + [c];
    ReadsOneMore(p, c);
    if p != [] {
      assert p[0] == d[0];
      DecimalIsTheOnly(p);
      DecimalOneMore(ReadDecimal(p, 0).0, c);
    } else {
      DigitOf(c);
    }
  }

  lemma ReadsOneMore(p: string, c: char)
    requires (forall i :: 0 <= i < |p| ==> IsDigit(p[i])) && IsDigit(c)
    ensures ReadDecimal(p + [c], 0).0 == 10 * ReadDecimal(p, 0).0 + (c as int - '0' as int)
  {
    ReadDecimalAppend(0, p, [c]);
    assert [c][1..] == [];
  }

  lemma DecimalOneMore(v: nat, c: char)
    requires IsDigit(c) && Decimal(v)[0] != '0'
    ensures Decimal(10 * v + (c as int - '0' as int)) == Decimal(v) + [c]
  {
    DigitOf(c);
    assert v != 0;
  }

  /** A tree of three nodes, as it is printed. */
  lemma SampleText()
    ensures Text(Node(2, [])) == "{\"id\":2,\"children\":[]}"
    ensures Text(Node(1, [Node(2, []), Node(3, [])])) ==
            "{\"id\":1,\"children\":[" + "{\"id\":2,\"children\":[]}" + "," + "{\"id\":3,\"children\":[]}" + "]}"
  {
    var x, y: Tree<Id> := Node(2, []), Node(3, []);
    var a, b := "{\"id\":2,\"children\":[]}", "{\"id\":3,\"children\":[]}";
    assert Text(x) == a;
    assert Text(y) == b;
    TwoTexts(x, y);
    assert Text(Node(1, [x, y])) == "{\"id\":" + "1" + ",\"children\":[" + (a + "," + b) + "]}";
    assert "{\"id\":" + "1" + ",\"children\":[" == "{\"id\":1,\"children\":[";
    Regroup("{\"id\":1,\"children\":[" + a, b, "]}");
  }

  lemma TwoTexts(x: Tree<Id>, y: Tree<Id>)
    ensures TextAll([x, y]) == Text(x) + "," + Text(y)
  {
    assert [x, y][1..] == [y];
  }

  lemma {:induction false} TextReads(t: Tree<Id>, rest: string)
    ensures ReadTree(Text(t) + rest) == Got(t, rest)
    decreases t
  {
    var head, mid, tail := "{\"id\":", ",\"children\":[", "]}";
    var afterBracket := TextAll(t.kids) + (tail + rest);
    TextSplits(t, rest);
    DecimalReads(t.root as int);
    ReadDecimalAppend(0, Decimal(t.root as int), mid + afterBracket);
    if t.kids == [] {
      assert afterBracket == tail + rest;
    } else {
      ForestReads(t.kids, tail + rest);
      TextStarts(t.kids, tail + rest);
    }
    SkipsPrefix(head, Decimal(t.root as int) + (mid + afterBracket));
    SkipsPrefix(mid, afterBracket);
    SkipsPrefix(tail, rest);
  }

  lemma SkipsPrefix(a: string, b: string)
    ensures Skip(a + b, a) == Some(b)
  {
  }

  lemma TextSplits(t: Tree<Id>, rest: string)
    ensures Text(t) + rest ==
            "{\"id\":" + (Decimal(t.root as int) + (",\"children\":[" + (TextAll(t.kids) + ("]}" + rest))))
  {
  }

  lemma TextStarts(f: seq<Tree<Id>>, rest: string)
    requires f != []
    ensures TextAll(f) + rest != [] && (TextAll(f) + rest)[0] == '{'
  {
    assert Text(f[0])[0] == '{';
  }

  lemma {:induction false} ForestReads(f: seq<Tree<Id>>, rest: string)
    requires f != [] && (rest == [] || rest[0] != ',')
    ensures ReadForest(TextAll(f) + rest) == Got(f, rest)
    decreases f
  {
    if |f| == 1 {
      TextReads(f[0], rest);
      assert f == [f[0]];
    } else {
      TextReads(f[0], "," + (TextAll(f[1..]) + rest));
      ForestReads(f[1..], rest);
      MoreReads(f, rest);
    }
  }

  lemma MoreReads(f: seq<Tree<Id>>, rest: string)
    requires |f| > 1
    requires var more := "," + (TextAll(f[1..]) + rest); ReadTree(Text(f[0]) + more) == Got(f[0], more)
    requires ReadForest(TextAll(f[1..]) + rest) == Got(f[1..], rest)
    ensures ReadForest(TextAll(f) + rest) == Got(f, rest)
  {
    Regroup(Text(f[0]), TextAll(f[1..]), rest);
    assert f == [f[0]] + f[1..];
  }

  lemma Regroup(a: string, b: string, rest: string)
    ensures (a + "," + b) + rest == a + ("," + (b + rest))
    ensures ("," + (b + rest))[0] == ',' && ("," + (b + rest))[1..] == b + rest
  {
  }

  /** Equal text means equal ids, shape and child order. */
  lemma TextIsUnambiguous(t: Tree<Id>, u: Tree<Id>)
    ensures Text(t) == Text(u) ==> t == u
  {
    TextReads(t, "");
    TextReads(u, "");
    assert Text(t) + "" == Text(t) && Text(u) + "" == Text(u);
  }
}
