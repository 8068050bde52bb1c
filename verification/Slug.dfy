/** Organization slugs: their shape, their words, and the loop that looks for one not in use. */
module Slug {
  import opened Common

  /** Which characters count as letters or digits, and what each is in lower case. */
  datatype Alphabet = Alphabet(isAlnum: char -> bool, lower: char -> string)

  predicate IsPlain(c: char) {
    'a' <= c <= 'z' || '0' <= c <= '9'
  }

  /** What is assumed of a script: the dash is no letter, lower case has characters but no dash and stays as it is, and
      plain letters and digits are their own lower case. */
  ghost predicate Sound(a: Alphabet) {
    && !a.isAlnum('-')
    && (forall c :: a.isAlnum(c) ==> a.lower(c) != "" && AllAre(Low(a), a.lower(c)) && '-' !in a.lower(c))
    && (forall c :: IsPlain(c) ==> a.isAlnum(c) && a.lower(c) == [c])
  }

  /** A dash, or a character that is its own lower case. */
  function Low(a: Alphabet): char -> bool {
    c => c == '-' || a.lower(c) == [c]
  }

  function AlnumOrDash(a: Alphabet): char -> bool {
    c => c == '-' || a.isAlnum(c)
  }

  /** Every letter or digit in lower case, and a dash for any other character. */
  function Dashed(a: Alphabet, name: string): string {
    if name == "" then ""
    else (if a.isAlnum(name[0]) then a.lower(name[0]) else "-") + Dashed(a, name[1..])
  }

  function Stripped(s: string): string {
    if s != "" && s[0] == '-' then Stripped(s[1..])
    else if s != "" && s[|s| - 1] == '-' then Stripped(s[..|s| - 1])
    else s
  }

  function Nonempty(pieces: seq<string>): seq<string> {
    if pieces == [] then []
    else if pieces[0] == "" then Nonempty(pieces[1..])
    else [pieces[0]] + Nonempty(pieces[1..])
  }

  function Joined(pieces: seq<string>): string {
    if pieces == [] then ""
    else if |pieces| == 1 then pieces[0]
    else pieces[0] + "-" + Joined(pieces[1..])
  }

  function Slugify(a: Alphabet, name: string): string {
    var slug := Joined(Nonempty(Split(Stripped(Dashed(a, name)), '-')));
    if slug == "" then "organization" else slug
  }

  // ---------- the shape of a slug ----------

  /** Every dash is followed by something else than a dash. */
  predicate SingleDashes(s: string) {
    forall i :: 0 <= i < |s| && s[i] == '-' ==> i + 1 < |s| && s[i + 1] != '-'
  }

  /** Non-empty, with no leading, trailing or doubled dash. */
  predicate Tidy(s: string) {
    s != "" && s[0] != '-' && SingleDashes(s)
  }

  predicate Word(s: string) {
    s != "" && forall i :: 0 <= i < |s| ==> s[i] != '-'
  }

  predicate Words(pieces: seq<string>) {
    pieces == [] || (Word(pieces[0]) && Words(pieces[1..]))
  }

  /** A piece is a word or empty. */
  lemma {:induction false} PiecesAreWords(s: string)
    ensures Words(Nonempty(Split(s, '-')))
    ensures Split(s, '-')[0] == "" || Word(Split(s, '-')[0])
  {
    if s == "" {
      assert Split(s, '-')[1..] == [];
    } else {
      var rest := Split(s[1..], '-');
      PiecesAreWords(s[1..]);
      if s[0] == '-' {
        assert Split(s, '-')[1..] == rest;
      } else {
        assert Split(s, '-')[1..] == rest[1..];
        NonemptyTail(rest);
      }
    }
  }

  lemma {:induction false} NonemptyTail(pieces: seq<string>)
    requires pieces != [] && Words(Nonempty(pieces))
    ensures Words(Nonempty(pieces[1..]))
  {
    if pieces[0] != "" {
      assert Nonempty(pieces)[1..] == Nonempty(pieces[1..]);
    }
  }

  lemma {:induction false} JoinedIsTidy(pieces: seq<string>)
    requires Words(pieces) && pieces != []
    ensures Tidy(Joined(pieces))
  {
    if |pieces| == 1 {
      assert Word(pieces[0]);
    } else {
      JoinedIsTidy(pieces[1..]);
      var first, rest, all := pieces[0], Joined(pieces[1..]), Joined(pieces);
      assert forall i :: |first| + 1 <= i < |all| ==> all[i] == rest[i - |first| - 1];
    }
  }

  lemma {:induction false} SlugifyIsTidy(a: Alphabet, name: string)
    ensures Tidy(Slugify(a, name))
  {
    var pieces := Nonempty(Split(Stripped(Dashed(a, name)), '-'));
    PiecesAreWords(Stripped(Dashed(a, name)));
    if pieces != [] {
      JoinedIsTidy(pieces);
    }
  }

  // ---------- the words of a slug ----------

  /** The maximal runs of letters and digits of a name, in lower case. */
  function WordsOf(a: Alphabet, name: string): seq<string> {
    Nonempty(Split(Dashed(a, name), '-'))
  }

  lemma {:induction false} SplitTrailingDash(s: string)
    ensures Split(s + "-", '-') == Split(s, '-') + [""]
  {
    if s == "" {
      assert Split("-"[1..], '-') == [""];
    } else {
      assert (s + "-")[1..] == s[1..] + "-";
      SplitTrailingDash(s[1..]);
    }
  }

  lemma {:induction false} NonemptyDropsLast(pieces: seq<string>)
    ensures Nonempty(pieces + [""]) == Nonempty(pieces)
  {
    if pieces == [] {
      assert [""][1..] == [];
    } else {
      assert (pieces + [""])[1..] == pieces[1..] + [""];
      NonemptyDropsLast(pieces[1..]);
    }
  }

  /** Stripping dashes at the ends loses no word. */
  lemma {:induction false} StrippedKeepsWords(s: string)
    ensures Nonempty(Split(Stripped(s), '-')) == Nonempty(Split(s, '-'))
    decreases |s|
  {
    if s != "" && s[0] == '-' {
      StrippedKeepsWords(s[1..]);
      assert Split(s, '-')[1..] == Split(s[1..], '-');
    } else if s != "" && s[|s| - 1] == '-' {
      var t := s[..|s| - 1];
      StrippedKeepsWords(t);
      assert s == t + "-";
      SplitTrailingDash(t);
      NonemptyDropsLast(Split(t, '-'));
    }
  }

  lemma {:induction false} SplitWord(word: string)
    requires forall i :: 0 <= i < |word| ==> word[i] != '-'
    ensures Split(word, '-') == [word]
  {
    if word == "" {
    } else {
      SplitWord(word[1..]);
      assert [word[0]] + word[1..] == word;
    }
  }

  lemma {:induction false} SplitAfterWord(word: string, rest: string)
    requires forall i :: 0 <= i < |word| ==> word[i] != '-'
    ensures Split(word + "-" + rest, '-') == [word] + Split(rest, '-')
  {
    var s := word + "-" + rest;
    if word == "" {
      assert s[1..] == rest;
    } else {
      assert s[1..] == word[1..] + "-" + rest;
      SplitAfterWord(word[1..], rest);
      assert [word[0]] + word[1..] == word;
    }
  }

  lemma {:induction false} SplitOfJoined(words: seq<string>)
    requires Words(words) && words != []
    ensures Split(Joined(words), '-') == words
  {
    if |words| == 1 {
      SplitWord(words[0]);
    } else {
      SplitOfJoined(words[1..]);
      SplitAfterWord(words[0], Joined(words[1..]));
    }
  }

  /** A slug has exactly the words of the name, in order; a name without any gets the default. */
  lemma {:induction false} SlugifyKeepsWords(a: Alphabet, name: string)
    ensures WordsOf(a, name) != [] ==> Split(Slugify(a, name), '-') == WordsOf(a, name)
    ensures WordsOf(a, name) == [] ==> Slugify(a, name) == "organization"
  {
    StrippedKeepsWords(Dashed(a, name));
    PiecesAreWords(Dashed(a, name));
    if WordsOf(a, name) != [] {
      SplitOfJoined(WordsOf(a, name));
      JoinedIsTidy(WordsOf(a, name));
    }
  }

  // ---------- words are runs of letters and digits ----------

  /** From lo to hi the name has letters and digits only, and none just before or after. */
  predicate IsRun(a: Alphabet, name: string, lo: int, hi: int) {
    && 0 <= lo < hi <= |name| && (forall i :: lo <= i < hi ==> a.isAlnum(name[i]))
    && (lo == 0 || !a.isAlnum(name[lo - 1])) && (hi == |name| || !a.isAlnum(name[hi]))
  }

  /** Letters and digits in lower case. */
  function Lowered(a: Alphabet, s: string): string {
    if s == "" then "" else a.lower(s[0]) + Lowered(a, s[1..])
  }

  /** Where the letters and digits that begin at i end. */
  function RunEnd(a: Alphabet, name: string, i: nat): (end: nat)
    requires i <= |name|
    ensures i <= end <= |name| && (forall k :: i <= k < end ==> a.isAlnum(name[k]))
    ensures end == |name| || !a.isAlnum(name[end])
    decreases |name| - i
  {
    if i == |name| || !a.isAlnum(name[i]) then i else RunEnd(a, name, i + 1)
  }

  /** Runs in order, each after `from`, and every run after it among them. */
  ghost predicate RunsAfter(a: Alphabet, name: string, from: int, runs: seq<(int, int)>) {
    && (forall k :: 0 <= k < |runs| ==> from < runs[k].0 && IsRun(a, name, runs[k].0, runs[k].1))
    && (forall k, l :: 0 <= k < l < |runs| ==> runs[k].1 < runs[l].0)
    && (forall lo, hi :: from < lo && IsRun(a, name, lo, hi) ==> (lo, hi) in runs)
  }

  /** The words are those of the runs. */
  ghost predicate WordsOfRuns(a: Alphabet, name: string, runs: seq<(int, int)>, words: seq<string>) {
    && |words| == |runs|
    && forall k :: 0 <= k < |runs| ==>
         0 <= runs[k].0 <= runs[k].1 <= |name| && words[k] == Lowered(a, name[runs[k].0..runs[k].1])
  }

  lemma {:induction false} SplitPrefix(word: string, s: string)
    requires forall i :: 0 <= i < |word| ==> word[i] != '-'
    ensures Split(word + s, '-') == [word + Split(s, '-')[0]] + Split(s, '-')[1..]
  {
    if word == "" {
      assert word + s == s && word + Split(s, '-')[0] == Split(s, '-')[0];
      assert [Split(s, '-')[0]] + Split(s, '-')[1..] == Split(s, '-');
    } else {
      assert (word + s)[1..] == word[1..] + s;
      SplitPrefix(word[1..], s);
      assert [word[0]] + (word[1..] + Split(s, '-')[0]) == word + Split(s, '-')[0];
    }
  }

  /** The pieces of the rest of a name that begins at i: what is left of the run there, then the words of later runs. */
  lemma {:induction false} RestOfName(a: Alphabet, name: string, i: nat) returns (runs: seq<(int, int)>)
    requires Sound(a) && i <= |name|
    ensures var pieces, end := Split(Dashed(a, name[i..]), '-'), RunEnd(a, name, i);
            && pieces[0] == Lowered(a, name[i..end])
            && RunsAfter(a, name, end, runs) && WordsOfRuns(a, name, runs, Nonempty(pieces[1..]))
    decreases |name| - i
  {
    if i == |name| {
      runs := [];
      assert name[i..] == "" && name[i..i] == "";
      assert Split(Dashed(a, name[i..]), '-')[1..] == [];
    } else {
      var later := RestOfName(a, name, i + 1);
      assert name[i..][1..] == name[i + 1..] && name[i..][0] == name[i];
      if a.isAlnum(name[i]) {
        runs := later;
        LetterGrows(a, name, i);
      } else {
        runs := WithFirst(i + 1, RunEnd(a, name, i + 1), later);
        DashStarts(a, name, i);
        FirstRun(a, name, i + 1, later);
        FirstWord(a, name, i + 1, later, Split(Dashed(a, name[i + 1..]), '-'));
        assert name[i..i] == "";
      }
    }
  }

  /** A letter or digit belongs to the run that goes on after it. */
  lemma {:induction false} LetterGrows(a: Alphabet, name: string, i: nat)
    requires Sound(a) && i < |name| && a.isAlnum(name[i])
    requires Split(Dashed(a, name[i + 1..]), '-')[0] == Lowered(a, name[i + 1..RunEnd(a, name, i + 1)])
    ensures var pieces, rest := Split(Dashed(a, name[i..]), '-'), Split(Dashed(a, name[i + 1..]), '-');
            pieces[0] == Lowered(a, name[i..RunEnd(a, name, i)]) && pieces[1..] == rest[1..]
  {
    var end := RunEnd(a, name, i + 1);
    assert name[i..][1..] == name[i + 1..] && name[i..][0] == name[i];
    SplitPrefix(a.lower(name[i]), Dashed(a, name[i + 1..]));
    assert name[i..end][0] == name[i] && name[i..end][1..] == name[i + 1..end];
  }

  /** Any other character ends a piece. */
  lemma {:induction false} DashStarts(a: Alphabet, name: string, i: nat)
    requires i < |name| && !a.isAlnum(name[i])
    ensures var pieces := Split(Dashed(a, name[i..]), '-');
            pieces[0] == "" && pieces[1..] == Split(Dashed(a, name[i + 1..]), '-')
  {
    assert name[i..][1..] == name[i + 1..] && name[i..][0] == name[i];
    var dashed := Dashed(a, name[i..]);
    assert dashed == "-" + Dashed(a, name[i + 1..]) && dashed[1..] == Dashed(a, name[i + 1..]);
  }

  lemma {:induction false} LoweredNonempty(a: Alphabet, s: string)
    requires Sound(a) && forall i :: 0 <= i < |s| ==> a.isAlnum(s[i])
    ensures Lowered(a, s) == "" <==> s == ""
  {
    if s == "" {
    } else {
      assert a.lower(s[0]) != "";
    }
  }

  /** A run that begins no later than the letters and digits at i end is the run they make. */
  lemma {:induction false} RunAtStart(a: Alphabet, name: string, i: nat, lo: int, hi: int)
    requires i <= |name| && i <= lo <= RunEnd(a, name, i) && IsRun(a, name, lo, hi)
    ensures lo == i && hi == RunEnd(a, name, i)
  {
  }

  /** The run that begins at i, if there is one, and those after it. */
  function WithFirst(i: nat, end: nat, later: seq<(int, int)>): seq<(int, int)> {
    if end > i then [(i, end)] + later else later
  }

  lemma {:induction false} FirstRun(a: Alphabet, name: string, i: nat, later: seq<(int, int)>)
    requires i <= |name| && (i == 0 || !a.isAlnum(name[i - 1])) && RunsAfter(a, name, RunEnd(a, name, i), later)
    ensures RunsAfter(a, name, i - 1, WithFirst(i, RunEnd(a, name, i), later))
  {
    var end := RunEnd(a, name, i);
    var runs := WithFirst(i, end, later);
    forall lo, hi | i - 1 < lo && IsRun(a, name, lo, hi) ensures (lo, hi) in runs {
      if lo <= end {
        RunAtStart(a, name, i, lo, hi);
        assert runs[0] == (lo, hi);
      } else {
        assert (lo, hi) in later;
      }
    }
  }

  lemma {:induction false} FirstWord(a: Alphabet, name: string, i: nat, later: seq<(int, int)>, pieces: seq<string>)
    requires Sound(a) && i <= |name| && pieces != [] && pieces[0] == Lowered(a, name[i..RunEnd(a, name, i)])
    requires WordsOfRuns(a, name, later, Nonempty(pieces[1..]))
    ensures WordsOfRuns(a, name, WithFirst(i, RunEnd(a, name, i), later), Nonempty(pieces))
  {
    LoweredNonempty(a, name[i..RunEnd(a, name, i)]);
  }

  /** The words of a slug are the maximal runs of letters and digits of the name, all of them, in order and in lower
      case. */
  lemma {:induction false} WordsAreRuns(a: Alphabet, name: string) returns (runs: seq<(int, int)>)
    requires Sound(a)
    ensures RunsAfter(a, name, -1, runs) && WordsOfRuns(a, name, runs, WordsOf(a, name))
  {
    var later := RestOfName(a, name, 0);
    assert name[0..] == name;
    FirstRun(a, name, 0, later);
    FirstWord(a, name, 0, later, Split(Dashed(a, name), '-'));
    runs := WithFirst(0, RunEnd(a, name, 0), later);
  }

  // ---------- the characters of a slug ----------

  predicate AllAre(ok: char -> bool, s: string) {
    forall i :: 0 <= i < |s| ==> ok(s[i])
  }

  predicate AllPieces(ok: char -> bool, pieces: seq<string>) {
    pieces == [] || (AllAre(ok, pieces[0]) && AllPieces(ok, pieces[1..]))
  }

  lemma {:induction false} SplitChars(ok: char -> bool, s: string)
    requires ok('-')
    ensures AllPieces(ok, Split(s, '-')) <==> AllAre(ok, s)
  {
    if s == "" {
    } else {
      var rest := Split(s[1..], '-');
      SplitChars(ok, s[1..]);
      assert AllAre(ok, s) <==> ok(s[0]) && AllAre(ok, s[1..]) by {
        assert s == [s[0]] + s[1..];
      }
      if s[0] == '-' {
        assert Split(s, '-')[1..] == rest;
      } else {
        assert Split(s, '-')[1..] == rest[1..];
        GrownChars(ok, s[0], rest[0]);
      }
    }
  }

  lemma {:induction false} GrownChars(ok: char -> bool, c: char, s: string)
    ensures AllAre(ok, [c] + s) <==> ok(c) && AllAre(ok, s)
  {
    var all := [c] + s;
    assert all[0] == c && forall i :: 0 <= i < |s| ==> all[i + 1] == s[i];
  }

  lemma {:induction false} NonemptyChars(ok: char -> bool, pieces: seq<string>)
    ensures AllPieces(ok, Nonempty(pieces)) <==> AllPieces(ok, pieces)
  {
    if pieces == [] {
    } else {
      NonemptyChars(ok, pieces[1..]);
      if pieces[0] != "" {
        assert Nonempty(pieces)[1..] == Nonempty(pieces[1..]);
      }
    }
  }

  lemma {:induction false} JoinedChars(ok: char -> bool, pieces: seq<string>)
    requires ok('-')
    ensures AllAre(ok, Joined(pieces)) <==> AllPieces(ok, pieces)
  {
    if |pieces| <= 1 {
    } else {
      JoinedChars(ok, pieces[1..]);
      ConcatChars(ok, pieces[0], "-" + Joined(pieces[1..]));
      GrownChars(ok, '-', Joined(pieces[1..]));
      assert Joined(pieces) == pieces[0] + ("-" + Joined(pieces[1..]));
    }
  }

  lemma {:induction false} ConcatChars(ok: char -> bool, s: string, t: string)
    ensures AllAre(ok, s + t) <==> AllAre(ok, s) && AllAre(ok, t)
  {
    var all := s + t;
    assert forall i :: 0 <= i < |s| ==> all[i] == s[i];
    assert forall i :: 0 <= i < |t| ==> all[|s| + i] == t[i];
  }

  /** Between the dashed name and its slug no kind of character is lost or gained. */
  lemma {:induction false} SlugChars(ok: char -> bool, a: Alphabet, name: string)
    requires ok('-') && WordsOf(a, name) != []
    ensures AllAre(ok, Slugify(a, name)) <==> AllAre(ok, Dashed(a, name))
  {
    StrippedKeepsWords(Dashed(a, name));
    PiecesAreWords(Dashed(a, name));
    JoinedIsTidy(WordsOf(a, name));
    JoinedChars(ok, WordsOf(a, name));
    NonemptyChars(ok, Split(Dashed(a, name), '-'));
    SplitChars(ok, Dashed(a, name));
  }

  /** The kinds of characters of the dashed name are those of the lower cases of the name's letters and digits. */
  lemma {:induction false} DashedChars(ok: char -> bool, a: Alphabet, name: string)
    requires ok('-')
    ensures AllAre(ok, Dashed(a, name)) <==>
            (forall i :: 0 <= i < |name| && a.isAlnum(name[i]) ==> AllAre(ok, a.lower(name[i])))
  {
    if name == "" {
    } else {
      DashedChars(ok, a, name[1..]);
      ConcatChars(ok, if a.isAlnum(name[0]) then a.lower(name[0]) else "-", Dashed(a, name[1..]));
      assert forall i :: 0 <= i < |name[1..]| ==> name[1..][i] == name[i + 1];
      assert forall i :: 0 < i < |name| ==> name[i] == name[1..][i - 1];
    }
  }

  // ---------- counting what is not a dash ----------

  function Undashed(s: string): nat {
    if s == "" then 0 else Undashed(s[1..]) + if s[0] == '-' then 0 else 1
  }

  function Total(pieces: seq<string>): nat {
    if pieces == [] then 0 else |pieces[0]| + Total(pieces[1..])
  }

  lemma {:induction false} SplitTotal(s: string)
    ensures Total(Split(s, '-')) == Undashed(s)
  {
    if s == "" {
      assert [""][1..] == [];
    } else {
      var rest := Split(s[1..], '-');
      SplitTotal(s[1..]);
      if s[0] == '-' {
        assert Split(s, '-')[1..] == rest;
      } else {
        assert Split(s, '-')[1..] == rest[1..];
      }
    }
  }

  lemma {:induction false} NonemptyTotal(pieces: seq<string>)
    ensures Total(Nonempty(pieces)) == Total(pieces)
  {
    if pieces == [] {
    } else {
      NonemptyTotal(pieces[1..]);
      if pieces[0] != "" {
        assert Nonempty(pieces)[1..] == Nonempty(pieces[1..]);
      }
    }
  }

  lemma {:induction false} SlugTotal(a: Alphabet, name: string)
    requires WordsOf(a, name) != []
    ensures Undashed(Slugify(a, name)) == Undashed(Dashed(a, name))
  {
    SlugifyKeepsWords(a, name);
    SplitTotal(Slugify(a, name));
    SplitTotal(Dashed(a, name));
    NonemptyTotal(Split(Dashed(a, name), '-'));
  }

  /** Dashing a text of low characters loses every one that is no letter or digit. */
  lemma {:induction false} DashingLoses(a: Alphabet, s: string)
    requires AllAre(Low(a), s) && !a.isAlnum('-')
    ensures Undashed(Dashed(a, s)) <= Undashed(s)
    ensures Undashed(Dashed(a, s)) == Undashed(s) ==> AllAre(AlnumOrDash(a), s)
  {
    if s == "" {
    } else {
      assert s == [s[0]] + s[1..];
      GrownChars(Low(a), s[0], s[1..]);
      GrownChars(AlnumOrDash(a), s[0], s[1..]);
      DashingLoses(a, s[1..]);
      var c := if a.isAlnum(s[0]) then [s[0]] else "-";
      assert Dashed(a, s) == c + Dashed(a, s[1..]);
      UndashedConcat(c, Dashed(a, s[1..]));
      assert c[1..] == "" && Undashed(c) == if c[0] == '-' then 0 else 1;
    }
  }

  lemma {:induction false} UndashedConcat(s: string, t: string)
    ensures Undashed(s + t) == Undashed(s) + Undashed(t)
  {
    if s == "" {
      assert s + t == t;
    } else {
      assert (s + t)[1..] == s[1..] + t;
      UndashedConcat(s[1..], t);
    }
  }

  // ---------- slugs are the fixed points ----------

  lemma {:induction false} JoinedSplit(s: string)
    ensures Joined(Split(s, '-')) == s
  {
    if s == "" {
    } else {
      JoinedSplit(s[1..]);
      var rest := Split(s[1..], '-');
      if s[0] == '-' {
        assert Split(s, '-')[1..] == rest;
        assert Joined(Split(s, '-')) == "" + "-" + s[1..];
      } else {
        JoinedGrows(s[0], rest);
      }
      assert s == [s[0]] + s[1..];
    }
  }

  lemma {:induction false} JoinedGrows(c: char, pieces: seq<string>)
    requires pieces != []
    ensures Joined([[c] + pieces[0]] + pieces[1..]) == [c] + Joined(pieces)
  {
    assert ([[c] + pieces[0]] + pieces[1..])[1..] == pieces[1..];
  }

  /** Single dashes leave no empty piece after the first. */
  lemma {:induction false} NoEmptyPieces(s: string)
    requires SingleDashes(s)
    ensures forall i :: 1 <= i < |Split(s, '-')| ==> Split(s, '-')[i] != ""
    ensures s != "" && s[0] != '-' ==> Split(s, '-')[0] != ""
  {
    if s == "" {
    } else {
      forall i | 0 <= i < |s[1..]| && s[1..][i] == '-' ensures i + 1 < |s[1..]| && s[1..][i + 1] != '-' {
        assert s[i + 1] == '-';
      }
      NoEmptyPieces(s[1..]);
      if s[0] == '-' {
        assert s[1] != '-' && s[1..][0] == s[1];
      }
    }
  }

  lemma {:induction false} NonemptyKeeps(pieces: seq<string>)
    requires forall i :: 0 <= i < |pieces| ==> pieces[i] != ""
    ensures Nonempty(pieces) == pieces
  {
    if pieces == [] {
    } else {
      NonemptyKeeps(pieces[1..]);
    }
  }

  /** A slug: tidy, of letters and digits in lower case and dashes. */
  ghost predicate IsSlug(a: Alphabet, s: string) {
    Tidy(s) && AllAre(Low(a), s) && AllAre(AlnumOrDash(a), s)
  }

  lemma {:induction false} DashedSlug(a: Alphabet, s: string)
    requires Sound(a) && AllAre(Low(a), s) && AllAre(AlnumOrDash(a), s)
    ensures Dashed(a, s) == s
  {
    if s == "" {
    } else {
      assert s == [s[0]] + s[1..];
      GrownChars(Low(a), s[0], s[1..]);
      GrownChars(AlnumOrDash(a), s[0], s[1..]);
      DashedSlug(a, s[1..]);
    }
  }

  lemma {:induction false} SlugIsFixed(a: Alphabet, s: string)
    requires Sound(a) && IsSlug(a, s)
    ensures Slugify(a, s) == s
  {
    DashedSlug(a, s);
    assert s[|s| - 1] != '-';
    NoEmptyPieces(s);
    NonemptyKeeps(Split(s, '-'));
    JoinedSplit(s);
  }

  lemma {:induction false} DefaultIsSlug(a: Alphabet)
    requires Sound(a)
    ensures IsSlug(a, "organization")
  {
    var s := "organization";
    assert forall i :: 0 <= i < |s| ==> IsPlain(s[i]);
  }

  lemma {:induction false} SlugIsLow(a: Alphabet, name: string)
    requires Sound(a)
    ensures AllAre(Low(a), Slugify(a, name))
  {
    if WordsOf(a, name) == [] {
      SlugifyKeepsWords(a, name);
      DefaultIsSlug(a);
    } else {
      DashedChars(Low(a), a, name);
      SlugChars(Low(a), a, name);
    }
  }

  /** The slugs are exactly the names that slugify to themselves. */
  lemma {:induction false} SlugsAreFixedPoints(a: Alphabet, s: string)
    requires Sound(a)
    ensures Slugify(a, s) == s <==> IsSlug(a, s)
  {
    if IsSlug(a, s) {
      SlugIsFixed(a, s);
    } else if Slugify(a, s) == s {
      SlugifyIsTidy(a, s);
      SlugIsLow(a, s);
      SlugifyKeepsWords(a, s);
      DefaultIsSlug(a);
      SlugTotal(a, s);
      DashingLoses(a, s);
    }
  }

  /** Slugifying twice is slugifying once if and only if the lower case of every letter and digit of the name is made
      of letters and digits. */
  lemma {:induction false} IdempotentExactly(a: Alphabet, name: string)
    requires Sound(a)
    ensures Slugify(a, Slugify(a, name)) == Slugify(a, name) <==>
            (forall i :: 0 <= i < |name| && a.isAlnum(name[i]) ==> AllAre(AlnumOrDash(a), a.lower(name[i])))
  {
    var slug := Slugify(a, name);
    SlugsAreFixedPoints(a, slug);
    SlugifyIsTidy(a, name);
    SlugIsLow(a, name);
    DashedChars(AlnumOrDash(a), a, name);
    if WordsOf(a, name) == [] {
      SlugifyKeepsWords(a, name);
      DefaultIsSlug(a);
      NoWords(a, name);
    } else {
      SlugChars(AlnumOrDash(a), a, name);
    }
  }

  /** A name without words has no letters or digits. */
  lemma {:induction false} NoWords(a: Alphabet, name: string)
    requires WordsOf(a, name) == []
    ensures AllAre(c => c == '-', Dashed(a, name))
  {
    var dash := (c: char) => c == '-';
    NonemptyChars(dash, Split(Dashed(a, name), '-'));
    SplitChars(dash, Dashed(a, name));
  }

  /** The ASCII letters and digits. */
  function Ascii(): Alphabet {
    Alphabet(c => IsPlain(c) || 'A' <= c <= 'Z', c => [LowerChar(c)])
  }

  /** For ASCII letters and digits, slugifying twice is slugifying once. */
  lemma {:induction false} AsciiIdempotent(name: string)
    ensures Slugify(Ascii(), Slugify(Ascii(), name)) == Slugify(Ascii(), name)
  {
    IdempotentExactly(Ascii(), name);
  }

  /** The same with the Turkish capital I with a dot, whose lower case ends in a combining dot that is no letter. */
  function WithDottedI(): Alphabet {
    Alphabet(c => IsPlain(c) || 'A' <= c <= 'Z' || c == '\U{130}',
             c => if c == '\U{130}' then "i\U{307}" else [LowerChar(c)])
  }

  lemma {:induction false} DottedINotIdempotent()
    ensures Sound(WithDottedI())
    ensures var a := WithDottedI(); Slugify(a, Slugify(a, "\U{130}")) != Slugify(a, "\U{130}")
  {
    var a := WithDottedI();
    var low := a.lower('\U{130}');
    assert low == "i\U{307}" && low[1] == '\U{307}' && !a.isAlnum('\U{307}');
    assert AllAre(Low(a), low) && !AllAre(AlnumOrDash(a), low);
    IdempotentExactly(a, "\U{130}");
  }

  // ---------- the loop ----------

  function Candidate(base: string, k: nat): string {
    if k == 0 then base else base + "-" + Decimal(k)
  }

  lemma {:induction false} CandidatesDiffer(base: string, j: nat, k: nat)
    requires j < k
    ensures Candidate(base, j) != Candidate(base, k)
  {
    if j > 0 && Candidate(base, j) == Candidate(base, k) {
      var n := |base + "-"|;
      assert Candidate(base, j)[n..] == Decimal(j) && Candidate(base, k)[n..] == Decimal(k);
      DecimalInjective(j, k);
    }
  }

  lemma {:induction false} TakenAreFew(base: string, existing: set<string>, k: nat)
    requires forall j :: 0 <= j < k ==> Candidate(base, j) in existing
    ensures k <= |existing|
  {
    var tried := seq(k, j requires 0 <= j < k => Candidate(base, j));
    var indices := Interval(0, k);
    forall i, j | i in indices && j in indices && tried[i] == tried[j] ensures i == j {
      if i < j {
        CandidatesDiffer(base, i, j);
      } else if j < i {
        CandidatesDiffer(base, j, i);
      }
    }
    ImageCard(indices, tried);
    SubsetCard(set i | i in indices :: tried[i], existing);
  }

  /** Probes the candidates in order, and stops at the first that is free, after at most one more probe than there are
      slugs in use. */
  method FreeSlug(base: string, existing: set<string>) returns (slug: string, probes: nat)
    ensures slug !in existing && 1 <= probes <= |existing| + 1
    ensures slug == if probes == 1 then base else base + "-" + Decimal(probes - 1)
    ensures forall k :: 0 <= k < probes - 1 ==> Candidate(base, k) in existing
  {
    slug := base;
    var suffix := 1;
    probes := 1;
    while slug in existing
      invariant probes == suffix <= |existing| + 1
      invariant slug == Candidate(base, suffix - 1)
      invariant forall k :: 0 <= k < suffix - 1 ==> Candidate(base, k) in existing
      decreases |existing| + 1 - suffix
    {
      TakenAreFew(base, existing, suffix);
      slug := base + "-" + Decimal(suffix);
      suffix := suffix + 1;
      probes := probes + 1;
    }
  }
}
