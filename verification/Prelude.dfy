/** Option and result types, and small facts about finite sets shared by every module. */
module Prelude {

  datatype Option<+T> = None | Some(value: T)

  datatype Result<+T, +E> = Success(value: T) | Failure(error: E)

  function Min(a: int, b: int): (m: int)
    ensures m <= a && m <= b && (m == a || m == b)
  {
    if a < b then a else b
  }

  /** What Rust's `trim` strips: the characters with the Unicode White_Space property. */
  predicate IsWhitespace(c: char) {
    c in {' ', '\t', '\n', '\r', '\U{000B}', '\U{000C}', '\U{0085}', '\U{00A0}', '\U{1680}',
          '\U{2028}', '\U{2029}', '\U{202F}', '\U{205F}', '\U{3000}'}
    || '\U{2000}' <= c <= '\U{200A}'
  }

  /** The same by code points: 25 of them. */
  lemma WhitespaceCodes(c: char)
    ensures IsWhitespace(c) <==>
            || 9 <= c as int <= 13
            || c as int in {0x20, 0x85, 0xA0, 0x1680, 0x2028, 0x2029, 0x202F, 0x205F, 0x3000}
            || 0x2000 <= c as int <= 0x200A
  {}

  predicate IsBlank(text: string) {
    forall c | c in text :: IsWhitespace(c)
  }

  /** Stripping white space from both ends. */
  function Trim(text: string): string {
    if text == "" then ""
    else if IsWhitespace(text[0]) then Trim(text[1..])
    else if IsWhitespace(text[|text| - 1]) then Trim(text[..|text| - 1])
    else text
  }

  /** A text is blank when nothing is left after trimming. */
  lemma {:induction false} BlankIffTrimmedAway(text: string)
    ensures IsBlank(text) <==> Trim(text) == ""
    decreases |text|
  {
    if text != "" {
      if IsWhitespace(text[0]) {
        BlankIffTrimmedAway(text[1..]);
        assert text == [text[0]] + text[1..];
      } else if IsWhitespace(text[|text| - 1]) {
        BlankIffTrimmedAway(text[..|text| - 1]);
        assert text == text[..|text| - 1] + [text[|text| - 1]];
        assert text[0] in text && text[..|text| - 1][0] == text[0];
      } else {
        assert text[0] in text;
      }
    }
  }

  ghost predicate IsLeast(m: nat, xs: set<nat>) {
    m in xs && forall x | x in xs :: m <= x
  }

  /** The first element of an ordered set. */
  function Least(xs: set<nat>): (m: nat)
    requires xs != {}
    ensures IsLeast(m, xs)
  {
    LeastExists(xs);
    var m :| m in xs && forall x | x in xs :: m <= x;
    m
  }

  lemma {:induction false} LeastExists(xs: set<nat>)
    requires xs != {}
    ensures exists m :: IsLeast(m, xs)
    decreases |xs|
  {
    var x :| x in xs;
    if xs == {x} {
      assert IsLeast(x, xs);
    } else {
      var rest := xs - {x};
      LeastExists(rest);
      var m :| IsLeast(m, rest);
      assert forall y | y in xs :: y == x || y in rest;
      assert IsLeast(if m < x then m else x, xs);
    }
  }

  /** The elements of an ordered set, in the order a BTreeMap or BTreeSet iterates over them. */
  function Ascending(xs: set<nat>): (s: seq<nat>)
    ensures forall x :: x in s <==> x in xs
    ensures forall i, j | 0 <= i < j < |s| :: s[i] < s[j]
    decreases |xs|
  {
    if xs == {} then []
    else
      var m := Least(xs);
      [m] + Ascending(xs - {m})
  }

  function Elements(s: seq<nat>): set<nat> {
    set x | x in s
  }

  lemma ElementsOneMore(s: seq<nat>, i: nat)
    requires i < |s|
    ensures Elements(s[..i + 1]) == Elements(s[..i]) + {s[i]}
  {
    assert s[..i + 1] == s[..i] + [s[i]];
  }

  /** Two sets related one to one have the same size. */
  lemma {:induction false} BijectionKeepsSize<A, B>(xs: set<A>, f: map<A, B>, ys: set<B>)
    requires xs <= f.Keys
    requires forall a, b | a in xs && b in xs && f[a] == f[b] :: a == b
    requires ys == set a | a in xs :: f[a]
    ensures |xs| == |ys|
    decreases |xs|
  {
    if xs != {} {
      var a :| a in xs;
      var rest := xs - {a};
      var image := ys - {f[a]};
      assert image == set b | b in rest :: f[b];
      BijectionKeepsSize(rest, f, image);
    }
  }
}
