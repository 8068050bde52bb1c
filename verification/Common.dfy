/** Small facts shared by several modules: options, finite sets and decimal numerals. */
module Common {

  datatype Option<+T> = None | Some(value: T)

  // ---------- finite sets ----------

  lemma {:induction false} SubsetCard<T>(a: set<T>, b: set<T>)
    requires a <= b
    ensures |a| <= |b|
  {
    if a == {} {
    } else {
      var x :| x in a;
      SubsetCard(a - {x}, b - {x});
    }
  }

  /** The integers lo, ..., hi - 1. */
  function Interval(lo: int, hi: int): (s: set<int>)
    requires lo <= hi
    ensures forall i :: i in s <==> lo <= i < hi
    ensures |s| == hi - lo
    decreases hi - lo
  {
    if lo == hi then {} else Interval(lo, hi - 1) + {hi - 1}
  }

  lemma {:induction false} NonemptyInts(s: set<int>) returns (x: int)
    requires s != {}
    ensures x in s
  {
    assert (forall y :: y !in s) ==> s == {};
    x :| x in s;
  }

  /** A nonempty finite set of integers has a least element. */
  lemma {:induction false} LeastElement(s: set<int>) returns (least: int)
    requires s != {}
    ensures least in s && forall x :: x in s ==> least <= x
  {
    var x := NonemptyInts(s);
    if s == {x} {
      least := x;
    } else {
      var m := LeastElement(s - {x});
      least := if x < m then x else m;
      assert forall y :: y in s ==> y == x || y in s - {x};
    }
  }

  /** An injective image has as many elements as its domain. */
  lemma {:induction false} ImageCard<T>(indices: set<int>, s: seq<T>)
    requires forall i :: i in indices ==> 0 <= i < |s|
    requires forall i, j :: i in indices && j in indices && s[i] == s[j] ==> i == j
    ensures |set i | i in indices :: s[i]| == |indices|
  {
    var image := set i | i in indices :: s[i];
    if indices != {} {
      var x := NonemptyInts(indices);
      ImageCard(indices - {x}, s);
      var rest := set i | i in indices - {x} :: s[i];
      assert image == rest + {s[x]};
      assert s[x] !in rest;
    } else {
      assert image == {};
    }
  }

  lemma {:induction false} ConcatAssoc<T>(a: seq<T>, b: seq<T>, c: seq<T>)
    ensures a + b + c == a + (b + c)
  {
  }

  // ---------- decimal numerals ----------

  function Digit(n: nat): char
    requires n < 10
  {
    ((n + 48) as char)
  }

  function Decimal(n: nat): string {
    if n < 10 then [Digit(n)] else Decimal(n / 10) + [Digit(n % 10)]
  }

  lemma {:induction false} DecimalInjective(m: nat, n: nat)
    requires Decimal(m) == Decimal(n)
    ensures m == n
  {
    var a, b := Decimal(m), Decimal(n);
    DecimalNonempty(m / 10);
    DecimalNonempty(n / 10);
    if m >= 10 && n >= 10 {
      assert a[..|a| - 1] == Decimal(m / 10) && b[..|b| - 1] == Decimal(n / 10);
      DecimalInjective(m / 10, n / 10);
      assert a[|a| - 1] == Digit(m % 10) && b[|b| - 1] == Digit(n % 10);
      assert m == m / 10 * 10 + m % 10 && n == n / 10 * 10 + n % 10;
    }
  }

  lemma {:induction false} DecimalNonempty(n: nat)
    ensures Decimal(n) != "" && forall c :: c in Decimal(n) ==> '0' <= c <= '9'
  {
    if n < 10 {
    } else {
      DecimalNonempty(n / 10);
    }
  }

  // ---------- text ----------

  /** text.split(separator): one more piece than there are separators. */
  function Split(text: string, separator: char): (pieces: seq<string>)
    ensures |pieces| >= 1
  {
    if text == "" then [""]
    else
      var rest := Split(text[1..], separator);
      if text[0] == separator then [""] + rest else [[text[0]] + rest[0]] + rest[1..]
  }

  /** Where the character first occurs, or the length of the text. */
  function FirstAt(s: string, c: char): nat {
    if s == "" || s[0] == c then 0 else 1 + FirstAt(s[1..], c)
  }

  lemma {:induction false} FirstAtEnd(a: string, c: char, x: string)
    requires c !in a
    ensures FirstAt(a + [c] + x, c) == |a|
  {
    if a == "" {
    } else {
      assert (a + [c] + x)[1..] == a[1..] + [c] + x;
      FirstAtEnd(a[1..], c, x);
    }
  }

  /** A text is cut at the first occurrence of a character in one way only. */
  lemma {:induction false} CutOnce(a: string, x: string, b: string, y: string, c: char)
    requires c !in a && c !in b && a + [c] + x == b + [c] + y
    ensures a == b && x == y
  {
    var s := a + [c] + x;
    FirstAtEnd(a, c, x);
    FirstAtEnd(b, c, y);
    assert s[..|a|] == a && s[..|b|] == b;
    assert s[|a| + 1..] == x && s[|b| + 1..] == y;
  }

  /** The ASCII characters that Python takes for white space. */
  predicate IsAsciiSpace(c: char) {
    c == ' ' || 9 <= c as int <= 13 || 28 <= c as int <= 31
  }

  /** Lower case of the ASCII letters. */
  function LowerChar(c: char): char {
    if 'A' <= c <= 'Z' then ((c as int) + 32) as char else c
  }

  /** The text spells the word, in letters of either case. */
  predicate Spells(s: string, word: string) {
    |s| == |word| && forall i :: 0 <= i < |s| ==>
      s[i] == word[i] || ('a' <= word[i] <= 'z' && s[i] as int + 32 == word[i] as int)
  }

  lemma {:induction false} LowerSpells(c: char, l: char)
    requires !('A' <= l <= 'Z')
    ensures LowerChar(c) == l <==> c == l || ('a' <= l <= 'z' && c as int + 32 == l as int)
  {
  }
}
