/** Iterative retrieval, and the check of what an answer cites against what was retrieved. */
module Research {
  import opened Common

  datatype Chunk = Chunk(document: string, index: int, text: string)

  // ---------- first occurrences ----------

  predicate SameKey(a: Chunk, b: Chunk) {
    a.document == b.document && a.index == b.index
  }

  predicate HasKey(chunks: seq<Chunk>, c: Chunk) {
    exists i :: 0 <= i < |chunks| && SameKey(chunks[i], c)
  }

  /** The first chunk of every key, in order. */
  function Firsts(chunks: seq<Chunk>): seq<Chunk> {
    if chunks == [] then []
    else
      var earlier, last := chunks[..|chunks| - 1], chunks[|chunks| - 1];
      if HasKey(earlier, last) then Firsts(earlier) else Firsts(earlier) + [last]
  }

  predicate Ascending(positions: seq<nat>, bound: nat) {
    && (forall k :: 0 <= k < |positions| ==> positions[k] < bound)
    && (forall k, l :: 0 <= k < l < |positions| ==> positions[k] < positions[l])
  }

  /** The picked elements stand at these positions of the source, which are those marked. */
  ghost predicate PickedAt<T>(positions: seq<nat>, picked: seq<T>, source: seq<T>, marked: seq<bool>) {
    && Ascending(positions, |source|) && |positions| == |picked| && |marked| == |source|
    && (forall k :: 0 <= k < |positions| ==> picked[k] == source[positions[k]])
    && (forall p: nat :: p < |source| ==> (p in positions <==> marked[p]))
  }

  /** One more element, picked if it is marked. */
  lemma {:induction false} PickMore<T>(
      positions: seq<nat>, picked: seq<T>, source: seq<T>, marked: seq<bool>, x: T, mark: bool)
    requires PickedAt(positions, picked, source, marked)
    ensures PickedAt(positions + (if mark then [|source|] else []), picked + (if mark then [x] else []),
                     source + [x], marked + [mark])
  {
    var n := |source|;
    assert n !in positions;
    assert forall p: nat :: p < n ==> (source + [x])[p] == source[p] && (marked + [mark])[p] == marked[p];
  }

  /** Which chunks have a key that did not occur before. */
  function NewKeys(chunks: seq<Chunk>): seq<bool> {
    seq(|chunks|, i requires 0 <= i < |chunks| =>
      forall j :: 0 <= j < i ==> chunks[j].document != chunks[i].document || chunks[j].index != chunks[i].index)
  }

  lemma {:induction false} NewKeysGrow(chunks: seq<Chunk>)
    requires chunks != []
    ensures NewKeys(chunks) == NewKeys(chunks[..|chunks| - 1]) + [!HasKey(chunks[..|chunks| - 1], chunks[|chunks| - 1])]
  {
    var n := |chunks| - 1;
    var earlier := chunks[..n];
    assert forall j :: 0 <= j < n ==> earlier[j] == chunks[j];
    forall i | 0 <= i < n ensures NewKeys(chunks)[i] == NewKeys(earlier)[i] {
    }
  }

  /** Firsts takes exactly the positions at which a key occurs for the first time, in ascending order. */
  lemma {:induction false} FirstsPositions(chunks: seq<Chunk>) returns (positions: seq<nat>)
    ensures PickedAt(positions, Firsts(chunks), chunks, NewKeys(chunks))
  {
    if chunks == [] {
      positions := [];
    } else {
      var n := |chunks| - 1;
      var earlier, mark := chunks[..n], !HasKey(chunks[..n], chunks[n]);
      positions := FirstsPositions(earlier);
      PickMore(positions, Firsts(earlier), earlier, NewKeys(earlier), chunks[n], mark);
      positions := positions + if mark then [n] else [];
      NewKeysGrow(chunks);
      assert earlier + [chunks[n]] == chunks;
      assert Firsts(chunks) == Firsts(earlier) + if mark then [chunks[n]] else [];
    }
  }

  // ---------- iterative retrieval ----------

  const MAX_RESEARCH_PASSES := 3

  /** What a pass would do if it ran: its chunks, none when retrieval fails, and the follow-up query the model would
      then ask for. */
  datatype Pass = Pass(found: Option<seq<Chunk>>, followUp: Option<string>)

  function FoundIn(pass: Pass): seq<Chunk> {
    if pass.found.Some? then pass.found.value else []
  }

  /** The model is not asked after an empty pass. */
  predicate GoesOn(pass: Pass) {
    FoundIn(pass) != [] && pass.followUp.Some? && pass.followUp.value != ""
  }

  /** What the first n passes found, in order. */
  function AllFound(passes: seq<Pass>, n: nat): seq<Chunk>
    requires n <= |passes|
  {
    if n == 0 then [] else AllFound(passes, n - 1) + FoundIn(passes[n - 1])
  }

  /** `seen` holds the keys of `merged`. */
  ghost predicate SeenFits(seen: set<(string, int)>, merged: seq<Chunk>) {
    forall c: Chunk :: (c.document, c.index) in seen <==> HasKey(merged, c)
  }

  lemma {:induction false} FirstsKeepKeys(chunks: seq<Chunk>, c: Chunk)
    ensures HasKey(Firsts(chunks), c) <==> HasKey(chunks, c)
  {
    if chunks == [] {
    } else {
      var n := |chunks| - 1;
      FirstsKeepKeys(chunks[..n], c);
      FirstsKeepKeys(chunks[..n], chunks[n]);
      HasKeyAppend(chunks[..n], chunks[n], c);
      HasKeyAppend(Firsts(chunks[..n]), chunks[n], c);
      assert chunks[..n] + [chunks[n]] == chunks;
      if HasKey(chunks[..n], chunks[n]) && SameKey(chunks[n], c) {
        var i :| 0 <= i < n && SameKey(chunks[..n][i], chunks[n]);
        assert SameKey(chunks[..n][i], c);
      }
    }
  }

  lemma {:induction false} HasKeyAppend(chunks: seq<Chunk>, last: Chunk, c: Chunk)
    ensures HasKey(chunks + [last], c) <==> HasKey(chunks, c) || SameKey(last, c)
  {
    var all := chunks + [last];
    if HasKey(chunks, c) {
      var i :| 0 <= i < |chunks| && SameKey(chunks[i], c);
      assert SameKey(all[i], c);
    }
    if SameKey(last, c) {
      assert SameKey(all[|chunks|], c);
    }
  }

  lemma {:induction false} FirstsGrow(offered: seq<Chunk>, c: Chunk)
    ensures Firsts(offered + [c]) == if HasKey(Firsts(offered), c) then Firsts(offered) else Firsts(offered) + [c]
  {
    assert (offered + [c])[..|offered|] == offered;
    FirstsKeepKeys(offered, c);
  }

  lemma {:induction false} SeenGrows(seen: set<(string, int)>, merged: seq<Chunk>, c: Chunk)
    requires SeenFits(seen, merged)
    ensures SeenFits(seen + {(c.document, c.index)}, merged + [c])
  {
    forall d: Chunk ensures (d.document, d.index) in seen + {(c.document, c.index)} <==> HasKey(merged + [c], d) {
      HasKeyAppend(merged, c, d);
    }
  }

  /** Adds the chunks whose key is new. `before` is everything offered so far. */
  method Add(seen: set<(string, int)>, merged: seq<Chunk>, chunks: seq<Chunk>, ghost before: seq<Chunk>)
    returns (nowSeen: set<(string, int)>, nowMerged: seq<Chunk>)
    requires merged == Firsts(before) && SeenFits(seen, merged)
    ensures nowMerged == Firsts(before + chunks) && SeenFits(nowSeen, nowMerged)
  {
    nowSeen, nowMerged := seen, merged;
    assert before + chunks[..0] == before;
    for i := 0 to |chunks|
      invariant nowMerged == Firsts(before + chunks[..i]) && SeenFits(nowSeen, nowMerged)
    {
      var c := chunks[i];
      assert before + chunks[..i + 1] == before + chunks[..i] + [c];
      FirstsGrow(before + chunks[..i], c);
      if (c.document, c.index) !in nowSeen {
        SeenGrows(nowSeen, nowMerged, c);
        nowSeen := nowSeen + {(c.document, c.index)};
        nowMerged := nowMerged + [c];
      }
    }
    assert chunks[..|chunks|] == chunks;
  }

  /** Runs a pass, then another as long as the model asks for one, but never more than three. */
  method ResearchNode(passes: seq<Pass>) returns (merged: seq<Chunk>, passesRun: nat)
    requires |passes| == 3
    ensures 1 <= passesRun <= 3
    ensures forall i :: 0 <= i < passesRun - 1 ==>
              && passes[i].found.Some? && passes[i].found.value != []
              && passes[i].followUp.Some? && passes[i].followUp.value != ""
    ensures passesRun < 3 ==>
              || passes[passesRun - 1].found.None? || passes[passesRun - 1].found.value == []
              || passes[passesRun - 1].followUp.None? || passes[passesRun - 1].followUp.value == ""
    ensures merged == Firsts(AllFound(passes, passesRun))
  {
    var seen: set<(string, int)> := {};
    merged, passesRun := [], 0;
    ghost var offered: seq<Chunk> := [];
    while passesRun < MAX_RESEARCH_PASSES
      invariant passesRun <= MAX_RESEARCH_PASSES
      invariant forall i :: 0 <= i < passesRun ==> GoesOn(passes[i])
      invariant offered == AllFound(passes, passesRun)
      invariant merged == Firsts(offered) && SeenFits(seen, merged)
    {
      seen, merged := Add(seen, merged, FoundIn(passes[passesRun]), offered);
      offered := offered + FoundIn(passes[passesRun]);
      passesRun := passesRun + 1;
      if passesRun >= MAX_RESEARCH_PASSES || !GoesOn(passes[passesRun - 1]) {
        return;
      }
    }
  }

  // ---------- what the answer cites ----------

  predicate IsHex(c: char) {
    '0' <= c <= '9' || 'a' <= c <= 'f' || 'A' <= c <= 'F'
  }

  /** Hexadecimal digits in groups of 8, 4, 4, 4 and 12, joined by dashes. */
  predicate IsUuid(s: string) {
    && |s| == 36
    && forall i :: 0 <= i < 36 ==> if i == 8 || i == 13 || i == 18 || i == 23 then s[i] == '-' else IsHex(s[i])
  }

  const MARKER := "citations:"

  predicate StartsWithMarker(s: string) {
    |s| >= |MARKER| && forall i :: 0 <= i < |MARKER| ==> LowerChar(s[i]) == MARKER[i]
  }

  function AfterSpaces(s: string): string {
    if s != "" && IsAsciiSpace(s[0]) then AfterSpaces(s[1..]) else s
  }

  function UntilBracket(s: string): Option<string> {
    if s == "" then None
    else if s[0] == ']' then Some("")
    else
      var rest := UntilBracket(s[1..]);
      if rest.Some? then Some([s[0]] + rest.value) else None
  }

  /** The bracketed text of a citation line that starts here. */
  function LineHere(s: string): Option<string> {
    if !StartsWithMarker(s) then None
    else
      var rest := AfterSpaces(s[|MARKER|..]);
      if rest != "" && rest[0] == '[' then UntilBracket(rest[1..]) else None
  }

  /** The bracketed text of the first citation line. */
  function CitationLine(answer: string): Option<string> {
    if LineHere(answer).Some? then LineHere(answer)
    else if answer == "" then None
    else CitationLine(answer[1..])
  }

  function UuidsIn(s: string): seq<string>
    decreases |s|
  {
    if |s| < 36 then []
    else if IsUuid(s[..36]) then [s[..36]] + UuidsIn(s[36..])
    else UuidsIn(s[1..])
  }

  /** The elements in order of first occurrence. */
  function Distinct(ids: seq<string>): seq<string> {
    if ids == [] then []
    else
      var earlier := Distinct(ids[..|ids| - 1]);
      if ids[|ids| - 1] in earlier then earlier else earlier + [ids[|ids| - 1]]
  }

  function ExtractCitations(answer: string): seq<string> {
    var line := CitationLine(answer);
    if line.Some? then Distinct(UuidsIn(line.value)) else []
  }

  function DocumentIds(chunks: seq<Chunk>): seq<string> {
    if chunks == [] then []
    else DocumentIds(chunks[..|chunks| - 1])
         + if chunks[|chunks| - 1].document != "" then [chunks[|chunks| - 1].document] else []
  }

  /** The citations that are, or are not, ids of retrieved chunks. */
  function Chosen(citations: seq<string>, retrieved: seq<string>, wanted: bool): seq<string> {
    if citations == [] then []
    else
      var last := citations[|citations| - 1];
      Chosen(citations[..|citations| - 1], retrieved, wanted) + if (last in retrieved) == wanted then [last] else []
  }

  datatype Sources = Sources(ids: seq<string>, unverified: bool)

  method ValidateCitations(
      citations: seq<string>, chunks: seq<Chunk>)
    returns (verified: seq<string>, dropped: seq<string>)
    ensures verified == Chosen(citations, DocumentIds(chunks), true)
    ensures dropped == Chosen(citations, DocumentIds(chunks), false)
  {
    var retrieved := DocumentIds(chunks);
    verified, dropped := [], [];
    for i := 0 to |citations|
      invariant verified == Chosen(citations[..i], retrieved, true)
      invariant dropped == Chosen(citations[..i], retrieved, false)
    {
      assert citations[..i + 1][..i] == citations[..i];
      if citations[i] in retrieved {
        verified := verified + [citations[i]];
      } else {
        dropped := dropped + [citations[i]];
      }
    }
    assert citations[..|citations|] == citations;
  }

  /** The sources shown with an answer. */
  function SourcesOf(answer: string, chunks: seq<Chunk>): Sources {
    var cited, retrieved := ExtractCitations(answer), DocumentIds(chunks);
    if cited != [] then Sources(Chosen(cited, retrieved, true), Chosen(cited, retrieved, false) != [])
    else Sources(Distinct(retrieved), false)
  }

  method Surface(answer: string, chunks: seq<Chunk>) returns (sources: Sources)
    ensures sources == SourcesOf(answer, chunks)
  {
    var cited := ExtractCitations(answer);
    if cited != [] {
      var verified, dropped := ValidateCitations(cited, chunks);
      sources := Sources(verified, dropped != []);
    } else {
      sources := Sources(Distinct(DocumentIds(chunks)), false);
    }
  }

  // ---------- what the sources are worth ----------

  predicate NoRepeats(ids: seq<string>) {
    forall i, j :: 0 <= i < j < |ids| ==> ids[i] != ids[j]
  }

  predicate IsRetrieved(id: string, chunks: seq<Chunk>) {
    id != "" && exists i :: 0 <= i < |chunks| && chunks[i].document == id
  }

  lemma {:induction false} DistinctFacts(ids: seq<string>)
    ensures NoRepeats(Distinct(ids)) && forall id :: id in Distinct(ids) <==> id in ids
  {
    if ids == [] {
    } else {
      DistinctFacts(ids[..|ids| - 1]);
      assert ids == ids[..|ids| - 1] + [ids[|ids| - 1]];
    }
  }

  lemma {:induction false} ChosenFacts(citations: seq<string>, retrieved: seq<string>, wanted: bool)
    ensures forall id :: id in Chosen(citations, retrieved, wanted) <==> id in citations && (id in retrieved) == wanted
    ensures NoRepeats(citations) ==> NoRepeats(Chosen(citations, retrieved, wanted))
  {
    if citations == [] {
    } else {
      var earlier, last := citations[..|citations| - 1], citations[|citations| - 1];
      ChosenFacts(earlier, retrieved, wanted);
      assert citations == earlier + [last];
      if NoRepeats(citations) {
        assert last !in earlier;
      }
    }
  }

  lemma {:induction false} DocumentIdsAre(chunks: seq<Chunk>, id: string)
    ensures id in DocumentIds(chunks) <==> IsRetrieved(id, chunks)
  {
    if chunks == [] {
    } else {
      var earlier := chunks[..|chunks| - 1];
      DocumentIdsAre(earlier, id);
      if IsRetrieved(id, chunks) && chunks[|chunks| - 1].document != id {
        var i :| 0 <= i < |chunks| && chunks[i].document == id;
        assert earlier[i].document == id;
      }
    }
  }

  /** Whatever the model writes, the sources shown never repeat and are exactly the cited ids that were retrieved, or
      all retrieved ids if nothing is cited; the answer is flagged exactly if it cites an id no retrieved chunk has. */
  lemma {:induction false} SourcesAreRetrieved(answer: string, chunks: seq<Chunk>)
    ensures var sources := SourcesOf(answer, chunks);
            && NoRepeats(sources.ids)
            && (forall id :: id in sources.ids <==>
                  IsRetrieved(id, chunks) && (ExtractCitations(answer) == [] || id in ExtractCitations(answer)))
            && (sources.unverified <==> exists id :: id in ExtractCitations(answer) && !IsRetrieved(id, chunks))
  {
    var cited, retrieved := ExtractCitations(answer), DocumentIds(chunks);
    var line := CitationLine(answer);
    if line.Some? {
      DistinctFacts(UuidsIn(line.value));
    }
    ChosenFacts(cited, retrieved, true);
    ChosenFacts(cited, retrieved, false);
    DistinctFacts(retrieved);
    forall id ensures id in retrieved <==> IsRetrieved(id, chunks) {
      DocumentIdsAre(chunks, id);
    }
    var dropped := Chosen(cited, retrieved, false);
    if dropped != [] {
      assert dropped[0] in cited && !IsRetrieved(dropped[0], chunks);
    }
  }

  // ---------- a citation line that is written is read back ----------

  function Listed(ids: seq<string>): string {
    if ids == [] then "" else if |ids| == 1 then ids[0] else ids[0] + ", " + Listed(ids[1..])
  }

  lemma {:induction false} UuidsOfListed(ids: seq<string>)
    requires forall i :: 0 <= i < |ids| ==> IsUuid(ids[i])
    ensures UuidsIn(Listed(ids)) == ids
  {
    if ids == [] {
    } else {
      var s := Listed(ids);
      UuidsOfListed(ids[1..]);
      assert s[..36] == ids[0];
      if |ids| > 1 {
        var rest := Listed(ids[1..]);
        SkipSeparator(rest);
        assert s[36..] == ", " + rest;
      } else {
        assert s[36..] == "";
      }
    }
  }

  lemma {:induction false} SkipSeparator(rest: string)
    ensures UuidsIn(", " + rest) == UuidsIn(rest)
  {
    var s := ", " + rest;
    assert s[1..][1..] == rest && s[1..] == " " + rest;
    if |s| >= 36 {
      assert s[..36][0] == ',' && !IsUuid(s[..36]);
      if |s[1..]| >= 36 {
        assert s[1..][..36][0] == ' ' && !IsUuid(s[1..][..36]);
      }
    }
  }

  lemma {:induction false} ListedHasNoBracket(ids: seq<string>)
    requires forall i :: 0 <= i < |ids| ==> IsUuid(ids[i])
    ensures ']' !in Listed(ids)
  {
    if ids == [] {
    } else {
      ListedHasNoBracket(ids[1..]);
      assert ']' !in ids[0];
    }
  }

  lemma {:induction false} UntilFirstBracket(s: string, rest: string)
    requires ']' !in s
    ensures UntilBracket(s + "]" + rest) == Some(s)
  {
    if s == "" {
    } else {
      assert (s + "]" + rest)[1..] == s[1..] + "]" + rest;
      UntilFirstBracket(s[1..], rest);
      assert [s[0]] + s[1..] == s;
    }
  }

  lemma {:induction false} LineIsRead(list: string, rest: string)
    requires ']' !in list
    ensures LineHere("CITATIONS: [" + list + "]" + rest) == Some(list)
  {
    var s := "CITATIONS: [" + list + "]" + rest;
    var after := s[|MARKER|..];
    assert after == " [" + list + "]" + rest;
    assert after[1..] == "[" + list + "]" + rest;
    assert AfterSpaces(after[1..]) == after[1..];
    assert after[1..][1..] == list + "]" + rest;
    UntilFirstBracket(list, rest);
  }

  /** No citation line starts before position n. */
  ghost predicate NoLineBefore(s: string, n: nat)
    requires n <= |s|
  {
    forall i :: 0 <= i < n ==> LineHere(s[i..]) == None
  }

  lemma {:induction false} NoLineInTail(prefix: string, line: string)
    requires prefix != "" && NoLineBefore(prefix + line, |prefix|)
    ensures NoLineBefore(prefix[1..] + line, |prefix| - 1)
    ensures LineHere(prefix + line) == None
  {
    assert (prefix + line)[0..] == prefix + line;
    var all, tail := prefix + line, prefix[1..] + line;
    assert all[1..] == tail;
    forall i | 0 <= i < |prefix[1..]| ensures LineHere(tail[i..]) == None {
      assert tail[i..] == all[i + 1..];
    }
  }

  lemma {:induction false} FirstLineFound(prefix: string, line: string)
    requires LineHere(line).Some? && NoLineBefore(prefix + line, |prefix|)
    ensures CitationLine(prefix + line) == LineHere(line)
  {
    if prefix == "" {
      assert prefix + line == line;
    } else {
      assert (prefix + line)[1..] == prefix[1..] + line;
      NoLineInTail(prefix, line);
      FirstLineFound(prefix[1..], line);
    }
  }

  /** An answer that closes with the citation line it was told to write, and has none before, cites exactly the ids
      written there, each once. */
  lemma {:induction false} CitationRoundTrip(prefix: string, ids: seq<string>, rest: string)
    requires forall i :: 0 <= i < |ids| ==> IsUuid(ids[i])
    requires var answer := prefix + ("CITATIONS: [" + Listed(ids) + "]" + rest);
             forall i :: 0 <= i < |prefix| ==> LineHere(answer[i..]) == None
    ensures ExtractCitations(prefix + ("CITATIONS: [" + Listed(ids) + "]" + rest)) == Distinct(ids)
  {
    ListedHasNoBracket(ids);
    LineIsRead(Listed(ids), rest);
    FirstLineFound(prefix, "CITATIONS: [" + Listed(ids) + "]" + rest);
    UuidsOfListed(ids);
  }

  // ---------- which texts are ids ----------

  /** Hexadecimal digits, listed. */
  predicate HexText(s: string) {
    forall i :: 0 <= i < |s| ==> s[i] in "0123456789abcdefABCDEF"
  }

  lemma {:induction false} HexIsListed(c: char)
    requires IsHex(c)
    ensures c in "0123456789abcdefABCDEF"
  {
    var digits := "0123456789abcdefABCDEF";
    if '0' <= c <= '9' {
      assert digits[c as int - 48] == c;
    } else if 'a' <= c <= 'f' {
      assert digits[c as int - 87] == c;
    } else {
      assert digits[c as int - 49] == c;
    }
  }

  lemma {:induction false} HexExactly(c: char)
    ensures IsHex(c) <==> c in "0123456789abcdefABCDEF"
  {
    if IsHex(c) {
      HexIsListed(c);
    }
  }

  /** Digits in groups of 8, 4, 4, 4 and 12, joined by dashes. */
  predicate Grouped(a: string, b: string, c: string, d: string, e: string) {
    && |a| == 8 && |b| == 4 && |c| == 4 && |d| == 4 && |e| == 12
    && HexText(a) && HexText(b) && HexText(c) && HexText(d) && HexText(e)
  }

  function WithDashes(a: string, b: string, c: string, d: string, e: string): string {
    a + "-" + b + "-" + c + "-" + d + "-" + e
  }

  lemma {:induction false} HexChars(s: string, i: nat)
    requires HexText(s) && i < |s|
    ensures IsHex(s[i])
  {
    HexExactly(s[i]);
  }

  lemma {:induction false} GroupedIsUuid(a: string, b: string, c: string, d: string, e: string)
    requires Grouped(a, b, c, d, e)
    ensures IsUuid(WithDashes(a, b, c, d, e))
  {
    var s := WithDashes(a, b, c, d, e);
    forall i | 0 <= i < 36 && i != 8 && i != 13 && i != 18 && i != 23 ensures IsHex(s[i]) {
      if i < 8 {
        HexChars(a, i);
      } else if i < 13 {
        HexChars(b, i - 9);
      } else if i < 18 {
        HexChars(c, i - 14);
      } else if i < 23 {
        HexChars(d, i - 19);
      } else {
        HexChars(e, i - 24);
      }
    }
  }

  lemma {:induction false} SliceIsHex(s: string, lo: nat, hi: nat)
    requires lo <= hi <= |s| && forall i :: lo <= i < hi ==> IsHex(s[i])
    ensures HexText(s[lo..hi])
  {
    forall i | 0 <= i < hi - lo ensures s[lo..hi][i] in "0123456789abcdefABCDEF" {
      HexExactly(s[lo + i]);
    }
  }

  lemma {:induction false} UuidIsDashed(s: string)
    requires IsUuid(s)
    ensures s == WithDashes(s[..8], s[9..13], s[14..18], s[19..23], s[24..])
  {
    var t := WithDashes(s[..8], s[9..13], s[14..18], s[19..23], s[24..]);
    assert |t| == 36;
    forall i | 0 <= i < 36 ensures s[i] == t[i] {
    }
  }

  lemma {:induction false} UuidIsGrouped(s: string) returns (a: string, b: string, c: string, d: string, e: string)
    requires IsUuid(s)
    ensures Grouped(a, b, c, d, e) && s == WithDashes(a, b, c, d, e)
  {
    a, b, c, d, e := s[0..8], s[9..13], s[14..18], s[19..23], s[24..36];
    SliceIsHex(s, 0, 8);
    SliceIsHex(s, 9, 13);
    SliceIsHex(s, 14, 18);
    SliceIsHex(s, 19, 23);
    SliceIsHex(s, 24, 36);
    UuidIsDashed(s);
    assert a == s[..8] && e == s[24..];
  }

  /** The ids that are read are exactly the texts of hexadecimal digits in these groups. */
  lemma {:induction false} UuidsExactly(s: string)
    ensures IsUuid(s) <==> exists a, b, c, d, e :: Grouped(a, b, c, d, e) && s == WithDashes(a, b, c, d, e)
  {
    if IsUuid(s) {
      var a, b, c, d, e := UuidIsGrouped(s);
    }
    if a, b, c, d, e :| Grouped(a, b, c, d, e) && s == WithDashes(a, b, c, d, e) {
      GroupedIsUuid(a, b, c, d, e);
    }
  }

  /** Such a text, written in a citation line, is read back. */
  lemma {:induction false} WrittenIdIsRead(
      prefix: string, a: string, b: string, c: string, d: string, e: string, rest: string)
    requires Grouped(a, b, c, d, e)
    requires var answer := prefix + ("CITATIONS: [" + WithDashes(a, b, c, d, e) + "]" + rest);
             forall i :: 0 <= i < |prefix| ==> LineHere(answer[i..]) == None
    ensures ExtractCitations(prefix + ("CITATIONS: [" + WithDashes(a, b, c, d, e) + "]" + rest))
         == [WithDashes(a, b, c, d, e)]
  {
    var id := WithDashes(a, b, c, d, e);
    GroupedIsUuid(a, b, c, d, e);
    assert Listed([id]) == id;
    CitationRoundTrip(prefix, [id], rest);
    assert [id][..0] == [];
    assert Distinct([id][..0]) == [];
  }

  // ---------- which lines are citation lines ----------

  lemma {:induction false} MarkerExactly(s: string)
    ensures StartsWithMarker(s) <==> |s| >= 10 && Spells(s[..10], "citations:")
  {
    if |s| >= 10 {
      forall i | 0 <= i < 10
        ensures LowerChar(s[i]) == "citations:"[i] <==>
                s[..10][i] == "citations:"[i] ||
                ('a' <= "citations:"[i] <= 'z' && s[..10][i] as int + 32 == "citations:"[i] as int)
      {
        LowerSpells(s[i], "citations:"[i]);
      }
    }
  }

  predicate AllSpace(s: string) {
    forall i :: 0 <= i < |s| ==> s[i] in " \t\n\r" || 11 <= s[i] as int <= 12 || 28 <= s[i] as int <= 31
  }

  lemma {:induction false} SpaceExactly(c: char)
    ensures IsAsciiSpace(c) <==> c in " \t\n\r" || 11 <= c as int <= 12 || 28 <= c as int <= 31
  {
    var listed := " \t\n\r";
    assert listed[0] == ' ' && listed[1] as int == 9 && listed[2] as int == 10 && listed[3] as int == 13;
  }

  lemma {:induction false} AfterSpacesIs(spaces: string, rest: string)
    requires AllSpace(spaces) && (rest == "" || !IsAsciiSpace(rest[0]))
    ensures AfterSpaces(spaces + rest) == rest
  {
    if spaces == "" {
      assert spaces + rest == rest;
    } else {
      SpaceExactly(spaces[0]);
      assert (spaces + rest)[1..] == spaces[1..] + rest;
      AfterSpacesIs(spaces[1..], rest);
    }
  }

  lemma {:induction false} SpacesBefore(s: string) returns (spaces: string)
    ensures AllSpace(spaces) && s == spaces + AfterSpaces(s)
  {
    if s != "" && IsAsciiSpace(s[0]) {
      SpaceExactly(s[0]);
      var more := SpacesBefore(s[1..]);
      spaces := [s[0]] + more;
      assert s == [s[0]] + s[1..];
    } else {
      spaces := "";
      assert s == spaces + s;
    }
  }

  lemma {:induction false} BracketAfter(s: string) returns (rest: string)
    requires UntilBracket(s).Some?
    ensures ']' !in UntilBracket(s).value && s == UntilBracket(s).value + "]" + rest
  {
    if s[0] == ']' {
      rest := s[1..];
      assert s == "" + "]" + rest;
    } else {
      rest := BracketAfter(s[1..]);
      assert s == [s[0]] + s[1..];
    }
  }

  /** The marker in letters of either case, white space, and the list in brackets. */
  ghost predicate IsLine(s: string, marker: string, spaces: string, list: string, rest: string) {
    Spells(marker, "citations:") && AllSpace(spaces) && ']' !in list && s == marker + spaces + "[" + list + "]" + rest
  }

  lemma {:induction false} LineReads(s: string, marker: string, spaces: string, list: string, rest: string)
    requires IsLine(s, marker, spaces, list, rest)
    ensures LineHere(s) == Some(list)
  {
    assert s[..10] == marker;
    MarkerExactly(s);
    assert s[10..] == spaces + ("[" + list + "]" + rest);
    AfterSpacesIs(spaces, "[" + list + "]" + rest);
    assert ("[" + list + "]" + rest)[1..] == list + "]" + rest;
    UntilFirstBracket(list, rest);
  }

  lemma {:induction false} ReadIsLine(s: string) returns (marker: string, spaces: string, rest: string)
    requires LineHere(s).Some?
    ensures IsLine(s, marker, spaces, LineHere(s).value, rest)
  {
    MarkerExactly(s);
    marker := s[..10];
    spaces := SpacesBefore(s[10..]);
    rest := BracketAfter(AfterSpaces(s[10..])[1..]);
    PutTogether(s, marker, spaces, AfterSpaces(s[10..]), LineHere(s).value, rest);
  }

  lemma {:induction false} PutTogether(
      s: string, marker: string, spaces: string, bracket: string, list: string, rest: string)
    requires |s| >= 10 && marker == s[..10] && s[10..] == spaces + bracket
    requires bracket != "" && bracket[0] == '[' && bracket[1..] == list + "]" + rest
    ensures s == marker + spaces + "[" + list + "]" + rest
  {
    assert s == s[..10] + s[10..];
    assert bracket == "[" + bracket[1..];
  }

  /** A citation line starts here if and only if the text here has that form. */
  lemma {:induction false} LinesExactly(s: string)
    ensures LineHere(s).Some? <==> exists marker, spaces, list, rest :: IsLine(s, marker, spaces, list, rest)
  {
    if LineHere(s).Some? {
      var marker, spaces, rest := ReadIsLine(s);
    }
    if marker, spaces, list, rest :| IsLine(s, marker, spaces, list, rest) {
      LineReads(s, marker, spaces, list, rest);
    }
  }

  /** The line taken is the first in the answer, if there is any. */
  lemma {:induction false} FirstLineExactly(answer: string)
    ensures CitationLine(answer).None? ==> forall i :: 0 <= i <= |answer| ==> LineHere(answer[i..]) == None
    ensures CitationLine(answer).Some? ==>
              exists i :: 0 <= i <= |answer| && LineHere(answer[i..]) == CitationLine(answer) &&
                          forall j :: 0 <= j < i ==> LineHere(answer[j..]) == None
  {
    assert answer[0..] == answer;
    if LineHere(answer).Some? {
    } else if answer == "" {
    } else {
      var tail := answer[1..];
      FirstLineExactly(tail);
      assert forall i :: 0 <= i <= |tail| ==> answer[i + 1..] == tail[i..];
      if CitationLine(tail).Some? {
        var k :| 0 <= k <= |tail| && LineHere(tail[k..]) == CitationLine(tail) &&
                 forall j :: 0 <= j < k ==> LineHere(tail[j..]) == None;
        LaterLine(answer, k);
      } else {
        forall i | 0 <= i <= |answer| ensures LineHere(answer[i..]) == None {
          if i > 0 {
            assert answer[i..] == tail[i - 1..];
          }
        }
      }
    }
  }

  lemma {:induction false} LaterLine(answer: string, k: nat)
    requires answer != "" && LineHere(answer) == None && k <= |answer[1..]|
    requires forall j :: 0 <= j < k ==> LineHere(answer[1..][j..]) == None
    ensures answer[1..][k..] == answer[k + 1..]
    ensures forall j :: 0 <= j < k + 1 ==> LineHere(answer[j..]) == None
  {
    forall j | 0 <= j < k + 1 ensures LineHere(answer[j..]) == None {
      if j == 0 {
        assert answer[0..] == answer;
      } else {
        assert answer[j..] == answer[1..][j - 1..];
      }
    }
  }

  /** Every id taken from an answer stands in its first citation line and has the form of an id. */
  lemma {:induction false} ExtractedAreWritten(answer: string, id: string)
    requires id in ExtractCitations(answer)
    ensures CitationLine(answer).Some? && IsUuid(id)
    ensures exists k :: StandsAt(id, CitationLine(answer).value, k)
  {
    var line := CitationLine(answer).value;
    DistinctFacts(UuidsIn(line));
    var k := UuidPlace(line, id);
    assert StandsAt(id, line, k);
  }

  predicate StandsAt(id: string, s: string, k: int) {
    0 <= k <= |s| - |id| && s[k..k + |id|] == id
  }

  lemma {:induction false} UuidPlace(s: string, id: string) returns (k: nat)
    requires id in UuidsIn(s)
    ensures k + 36 <= |s| && s[k..k + 36] == id && IsUuid(id)
    decreases |s|
  {
    if IsUuid(s[..36]) && id == s[..36] {
      k := 0;
    } else {
      var step := if IsUuid(s[..36]) then 36 else 1;
      var m := UuidPlace(s[step..], id);
      k := m + step;
      assert s[step..][m..m + 36] == s[k..k + 36];
    }
  }

  // ---------- order ----------

  /** What three passes found, one after the other; a failed retrieval found nothing. */
  lemma {:induction false} AllFoundIs(passes: seq<Pass>)
    requires |passes| == 3
    ensures var f := seq(3, i requires 0 <= i < 3 => if passes[i].found.Some? then passes[i].found.value else []);
            && AllFound(passes, 1) == f[0] && AllFound(passes, 2) == f[0] + f[1]
            && AllFound(passes, 3) == f[0] + f[1] + f[2]
  {
    assert AllFound(passes, 0) == [];
    assert AllFound(passes, 1) == AllFound(passes, 0) + FoundIn(passes[0]);
    assert AllFound(passes, 2) == AllFound(passes, 1) + FoundIn(passes[1]);
  }

  /** Which citations are kept, or dropped. */
  function Kept(citations: seq<string>, retrieved: seq<string>, wanted: bool): seq<bool> {
    seq(|citations|, i requires 0 <= i < |citations| => (citations[i] in retrieved) == wanted)
  }

  /** They keep their order. */
  lemma {:induction false} ChosenPositions(citations: seq<string>, retrieved: seq<string>, wanted: bool)
    returns (positions: seq<nat>)
    ensures PickedAt(positions, Chosen(citations, retrieved, wanted), citations, Kept(citations, retrieved, wanted))
  {
    if citations == [] {
      positions := [];
    } else {
      var n := |citations| - 1;
      var earlier, mark := citations[..n], (citations[n] in retrieved) == wanted;
      positions := ChosenPositions(earlier, retrieved, wanted);
      PickMore(positions, Chosen(earlier, retrieved, wanted), earlier, Kept(earlier, retrieved, wanted), citations[n], mark);
      positions := positions + if mark then [n] else [];
      assert earlier + [citations[n]] == citations;
      assert Kept(earlier, retrieved, wanted) + [mark] == Kept(citations, retrieved, wanted);
    }
  }

  /** Which ids occur for the first time. */
  function New(ids: seq<string>): seq<bool> {
    seq(|ids|, i requires 0 <= i < |ids| => forall j :: 0 <= j < i ==> ids[j] != ids[i])
  }

  lemma {:induction false} NewGrows(ids: seq<string>)
    requires ids != []
    ensures New(ids) == New(ids[..|ids| - 1]) + [ids[|ids| - 1] !in Distinct(ids[..|ids| - 1])]
  {
    var n := |ids| - 1;
    var earlier := ids[..n];
    DistinctFacts(earlier);
    assert forall j :: 0 <= j < n ==> earlier[j] == ids[j];
    forall i | 0 <= i < n ensures New(ids)[i] == New(earlier)[i] {
    }
  }

  /** Distinct ids come in the order of their first occurrences. */
  lemma {:induction false} DistinctPositions(ids: seq<string>) returns (positions: seq<nat>)
    ensures PickedAt(positions, Distinct(ids), ids, New(ids))
  {
    if ids == [] {
      positions := [];
    } else {
      var n := |ids| - 1;
      var earlier, mark := ids[..n], ids[n] !in Distinct(ids[..n]);
      positions := DistinctPositions(earlier);
      PickMore(positions, Distinct(earlier), earlier, New(earlier), ids[n], mark);
      positions := positions + if mark then [n] else [];
      NewGrows(ids);
      assert earlier + [ids[n]] == ids;
    }
  }

  function Documents(chunks: seq<Chunk>): seq<string> {
    seq(|chunks|, i requires 0 <= i < |chunks| => chunks[i].document)
  }

  function Named(chunks: seq<Chunk>): seq<bool> {
    seq(|chunks|, i requires 0 <= i < |chunks| => chunks[i].document != "")
  }

  /** The ids of the chunks that have one, in order. */
  lemma {:induction false} IdPositions(chunks: seq<Chunk>) returns (positions: seq<nat>)
    ensures PickedAt(positions, DocumentIds(chunks), Documents(chunks), Named(chunks))
  {
    if chunks == [] {
      positions := [];
    } else {
      var n := |chunks| - 1;
      var earlier, mark := chunks[..n], chunks[n].document != "";
      positions := IdPositions(earlier);
      PickMore(positions, DocumentIds(earlier), Documents(earlier), Named(earlier), chunks[n].document, mark);
      positions := positions + if mark then [n] else [];
      assert Documents(earlier) + [chunks[n].document] == Documents(chunks);
      assert Named(earlier) + [mark] == Named(chunks);
    }
  }
}
