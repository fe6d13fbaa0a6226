/** The part of the JavaScript runtime that the route handlers lean on:
    `undefined`, the truthiness behind `||` and `!x`, and the string
    built-ins `trim`, `slice` and `join`. */
module Js {

  /** A value that may be `undefined`. */
  datatype Option<+T> = None | Some(value: T)

  /** What an awaited call gave back: its value, or the message of the error it threw. */
  datatype Outcome<+T> = Returned(value: T) | Threw(message: string)

  /** JavaScript truthiness of a string that may be `undefined`: `undefined` and `""` are falsy. */
  predicate Truthy(s: Option<string>) {
    s.Some? && s.value != ""
  }

  /** `a || b` on strings that may be `undefined`: the first operand when it is truthy, else the second. */
  function Or(a: Option<string>, b: Option<string>): (r: Option<string>)
    ensures Truthy(r) <==> Truthy(a) || Truthy(b)
    ensures Truthy(a) ==> r == a
    ensures !Truthy(a) ==> r == b
  {
    if Truthy(a) then a else b
  }

  // ---------------------------------------------------------------------------
  // Characters

  /** The characters JavaScript's `\s` and `String.prototype.trim` treat as white
      space: the WhiteSpace and LineTerminator productions of ECMAScript. */
  predicate IsWhitespace(c: char) {
    var n := c as int;
    (0x09 <= n <= 0x0D) || n == 0x20 || n == 0xA0 || n == 0x1680
    || (0x2000 <= n <= 0x200A) || n == 0x2028 || n == 0x2029
    || n == 0x202F || n == 0x205F || n == 0x3000 || n == 0xFEFF
  }

  /** The characters JavaScript's `\d` matches (without the `u` flag): ASCII digits only. */
  predicate IsAsciiDigit(c: char) {
    '0' <= c <= '9'
  }

  // ---------------------------------------------------------------------------
  // Strings

  /** Removes the longest prefix of `s` whose characters all satisfy `p`. */
  function DropWhile(p: char -> bool, s: string): (r: string)
    ensures |r| <= |s| && r == s[|s| - |r|..]
    ensures forall i :: 0 <= i < |s| - |r| ==> p(s[i])
    ensures r != [] ==> !p(r[0])
    decreases |s|
  {
    if s != [] && p(s[0]) then DropWhile(p, s[1..]) else s
  }

  /** `String.prototype.trimEnd`: removes the longest suffix of white space. */
  function TrimEnd(s: string): (r: string)
    ensures |r| <= |s| && r == s[..|r|]
    ensures forall i :: |r| <= i < |s| ==> IsWhitespace(s[i])
    ensures r != [] ==> !IsWhitespace(r[|r| - 1])
    decreases |s|
  {
    if s != [] && IsWhitespace(s[|s| - 1]) then TrimEnd(s[..|s| - 1]) else s
  }

  /** `String.prototype.trim`: white space removed from both ends. */
  function Trim(s: string): (r: string)
    ensures |r| <= |s|
    ensures exists a :: InsideWhitespace(s, a, r)
    ensures r != [] ==> !IsWhitespace(r[0]) && !IsWhitespace(r[|r| - 1])
    ensures (forall i :: 0 <= i < |s| ==> !IsWhitespace(s[i])) ==> r == s
  {
    var d := DropWhile(IsWhitespace, s);
    var r := TrimEnd(d);
    var a := |s| - |d|;
    assert InsideWhitespace(s, a, r);
    r
  }

  /** `r` is `s[a..a + |r|]`, and everything of `s` outside it is white space. */
  predicate InsideWhitespace(s: string, a: int, r: string) {
    0 <= a <= |s| - |r| && r == s[a..a + |r|]
    && (forall i :: 0 <= i < a ==> IsWhitespace(s[i]))
    && (forall i :: a + |r| <= i < |s| ==> IsWhitespace(s[i]))
  }

  predicate AllWhitespace(s: string) {
    forall i :: 0 <= i < |s| ==> IsWhitespace(s[i])
  }

  /** White space around a text does not change what `trim` returns. */
  lemma TrimAround(lead: string, body: string, ws: string)
    requires AllWhitespace(lead) && AllWhitespace(ws)
    ensures Trim(lead + body + ws) == Trim(body)
  {
    Assoc(lead, body, ws);
    DropLeadingRun(IsWhitespace, lead, body + ws);
    DropWhileAppend(IsWhitespace, body, ws);
    var d := DropWhile(IsWhitespace, body);
    if d != [] {
      TrimEndWhitespace(d, ws);
    } else {
      DropLeadingRun(IsWhitespace, ws, []);
      assert ws + [] == ws;
    }
  }

  lemma {:induction false} DropLeadingRun(p: char -> bool, lead: string, t: string)
    requires forall i :: 0 <= i < |lead| ==> p(lead[i])
    ensures DropWhile(p, lead + t) == DropWhile(p, t)
    decreases |lead|
  {
    if lead != [] {
      assert (lead + t)[0] == lead[0];
      assert (lead + t)[1..] == lead[1..] + t;
      DropLeadingRun(p, lead[1..], t);
    } else {
      assert lead + t == t;
    }
  }

  /** Dropping a leading run from `b + w` stops inside `b` unless all of `b` belongs to the run. */
  lemma {:induction false} DropWhileAppend(p: char -> bool, b: string, w: string)
    ensures DropWhile(p, b) != [] ==> DropWhile(p, b + w) == DropWhile(p, b) + w
    ensures DropWhile(p, b) == [] ==> DropWhile(p, b + w) == DropWhile(p, w)
    decreases |b|
  {
    if b == [] {
      assert b + w == w;
    } else {
      assert (b + w)[0] == b[0];
      assert (b + w)[1..] == b[1..] + w;
      DropWhileAppend(p, b[1..], w);
    }
  }

  lemma {:induction false} TrimEndWhitespace(x: string, ws: string)
    requires AllWhitespace(ws)
    ensures TrimEnd(x + ws) == TrimEnd(x)
    decreases |ws|
  {
    if ws == [] {
      assert x + ws == x;
    } else {
      var s := x + ws;
      assert IsWhitespace(s[|s| - 1]);
      assert s[..|s| - 1] == x + ws[..|ws| - 1];
      TrimEndWhitespace(x, ws[..|ws| - 1]);
    }
  }

  lemma Assoc(x: string, y: string, z: string)
    ensures x + (y + z) == x + y + z
  {
  }

  /** `s.slice(0, n)`: the first `n` characters, or all of `s` when it is shorter. */
  function SliceTo(s: string, n: nat): (r: string)
    ensures r <= s
    ensures |r| == if |s| <= n then |s| else n
  {
    if |s| <= n then s else s[..n]
  }

  /** The sum of the lengths of `xs`. */
  function TotalLength(xs: seq<string>): nat {
    if xs == [] then 0 else TotalLength(xs[..|xs| - 1]) + |xs[|xs| - 1]|
  }

  /** `Array.prototype.join(sep)`: the elements with `sep` between neighbours. */
  function Join(xs: seq<string>, sep: string): (r: string)
    ensures xs == [] ==> r == []
    ensures xs != [] ==> xs[0] <= r
    ensures xs != [] ==> |xs[|xs| - 1]| <= |r| && r[|r| - |xs[|xs| - 1]|..] == xs[|xs| - 1]
    decreases |xs|
  {
    if |xs| <= 1 then (if xs == [] then "" else xs[0])
    else Join(xs[..|xs| - 1], sep) + sep + xs[|xs| - 1]
  }

  /** The joined length is the sum of the parts plus one separator between
      each pair of neighbours. */
  lemma {:induction false} JoinLength(xs: seq<string>, sep: string)
    requires xs != []
    ensures |Join(xs, sep)| == TotalLength(xs) + (|xs| - 1) * |sep|
    decreases |xs|
  {
    if |xs| > 1 {
      var init := xs[..|xs| - 1];
      JoinLength(init, sep);
      assert |Join(xs, sep)| == |Join(init, sep)| + |sep| + |xs[|xs| - 1]|;
      assert TotalLength(xs) == TotalLength(init) + |xs[|xs| - 1]|;
      assert (|xs| - 1) * |sep| == (|init| - 1) * |sep| + |sep|;
    }
  }

  /** Joining a first part to the rest puts one separator between them; with
      the last part as a suffix, this fixes every part's place in the result. */
  lemma {:induction false} JoinCons(x: string, xs: seq<string>, sep: string)
    requires xs != []
    ensures Join([x] + xs, sep) == x + sep + Join(xs, sep)
    decreases |xs|
  {
    var all := [x] + xs;
    var last := xs[|xs| - 1];
    assert all[|all| - 1] == last;
    if |xs| > 1 {
      var init := xs[..|xs| - 1];
      assert all[..|all| - 1] == [x] + init;
      calc {
        Join(all, sep);
        Join([x] + init, sep) + sep + last;
        { JoinCons(x, init, sep); }
        x + sep + Join(init, sep) + sep + last;
        x + sep + (Join(init, sep) + sep + last);
        x + sep + Join(xs, sep);
      }
    } else {
      assert all[..|all| - 1] == [x];
      assert all == [x, last];
    }
  }

  /** No occurrence of `c` in `s`. */
  predicate Lacks(s: string, c: char) {
    forall i :: 0 <= i < |s| ==> s[i] != c
  }
}
