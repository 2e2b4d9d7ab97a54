/**
 * The text chunker of the speech service: `split_into_sentences` cuts the text to
 * synthesise into chunks short enough for one inference call.  It collapses
 * whitespace, cuts after `.`, `!` and `?`, and cuts a sentence longer than
 * `MaxChunkChars` again after `,`, `;`, `–` and `—`, packing those clauses
 * greedily back into chunks of at most `MaxChunkChars` characters.
 */
module Chunker {
  import opened Text

  /** `MAX_CHUNK_CHARS`: the longest chunk the packer builds out of several clauses. */
  const MaxChunkChars := 200

  /** The characters after which a space ends a sentence. */
  const SentenceMarks: set<char> := {'.', '!', '?'}

  /** The characters after which a space ends a clause of a long sentence (comma, semicolon, en and em dash). */
  const ClauseMarks: set<char> := {',', ';', '\U{2013}', '\U{2014}'}

  /** `[s.strip() for s in pieces if s.strip()]`. */
  function StripFilter(pieces: seq<string>): seq<string> {
    if pieces == [] then []
    else (if Strip(pieces[0]) != "" then [Strip(pieces[0])] else []) + StripFilter(pieces[1..])
  }

  /** The sentences of the normalised text, as the first split and the filter give them. */
  function Sentences(text: string): seq<string> {
    StripFilter(SplitAfter(Normalize(text), SentenceMarks))
  }

  /** The packing loop over the clauses `parts` of one long sentence, `cur` being the chunk under construction. */
  function PackFrom(parts: seq<string>, cur: string): seq<string>
    decreases |parts|
  {
    if parts == [] then (if cur != "" then [cur] else [])
    else
      var part := parts[0];
      if |cur| + |part| + 1 <= MaxChunkChars then
        PackFrom(parts[1..], if cur != "" then Strip(cur + " " + part) else part)
      else
        (if cur != "" then [cur] else []) + PackFrom(parts[1..], part)
  }

  /** The chunks one sentence contributes. */
  function ChunkSentence(s: string): seq<string> {
    if |s| <= MaxChunkChars then [s] else PackFrom(SplitAfter(s, ClauseMarks), "")
  }

  /** The chunks of a list of sentences, in order. */
  function ChunkAll(ss: seq<string>): seq<string> {
    if ss == [] then [] else ChunkAll(ss[..|ss| - 1]) + ChunkSentence(ss[|ss| - 1])
  }

  /** What `split_into_sentences(text)` returns. */
  function Chunks(text: string): seq<string> {
    var chunks := ChunkAll(Sentences(text));
    if chunks == [] then [Normalize(text)] else chunks
  }

  /** `split_into_sentences`: the loops of the source, building the chunk list by appending. */
  method SplitIntoSentences(text: string) returns (chunks: seq<string>)
    ensures chunks == Chunks(text)
    ensures |chunks| >= 1
    ensures IsBlank(text) <==> chunks == [""]
    ensures JoinSpace(chunks) == Normalize(text)
    ensures !IsBlank(text) ==> forall c | c in chunks :: c != "" && Normalized(c) && NoBreak(c, SentenceMarks)
    ensures forall c | c in chunks :: |c| <= MaxChunkChars || NoBreak(c, ClauseMarks)
  {
    var normalized := Normalize(text);
    var sentences := StripFilter(SplitAfter(normalized, SentenceMarks));
    chunks := [];
    for i := 0 to |sentences|
      invariant chunks == ChunkAll(sentences[..i])
    {
      var sentence := sentences[i];
      assert sentences[..i + 1][..i] == sentences[..i];
      if |sentence| <= MaxChunkChars {
        chunks := chunks + [sentence];
      } else {
        var subParts := SplitAfter(sentence, ClauseMarks);
        var current := "";
        ghost var before := chunks;
        for j := 0 to |subParts|
          invariant chunks + PackFrom(subParts[j..], current) == before + PackFrom(subParts, "")
        {
          var part := subParts[j];
          assert subParts[j..][1..] == subParts[j + 1..];
          if |current| + |part| + 1 <= MaxChunkChars {
            current := if current != "" then Strip(current + " " + part) else part;
          } else {
            if current != "" {
              chunks := chunks + [current];
            }
            current := part;
          }
        }
        if current != "" {
          chunks := chunks + [current];
        }
      }
    }
    assert sentences[..|sentences|] == sentences;
    if chunks == [] {
      chunks := [normalized];
    }
    ChunksNeverEmpty(text);
    ChunksRoundTrip(text);
    ChunksWellFormed(text);
    ChunksSizeBound(text);
  }

  // ---------------------------------------------------------------------------
  // Groups of clauses

  /** The concatenation of a list of lists. */
  function Flatten(groups: seq<seq<string>>): seq<string> {
    if groups == [] then [] else groups[0] + Flatten(groups[1..])
  }

  /** Each group joined with spaces. */
  function MapJoin(groups: seq<seq<string>>): seq<string> {
    seq(|groups|, k requires 0 <= k < |groups| => JoinSpace(groups[k]))
  }

  /**
   * `groups` is the greedy packing of `parts`: the groups cover the parts in order,
   * only a group of one part may exceed the limit, and a group is closed only when
   * adding the next part (and its separating space) would exceed it.
   */
  predicate GreedyGrouping(parts: seq<string>, groups: seq<seq<string>>) {
    && Flatten(groups) == parts
    && (forall k | 0 <= k < |groups| :: groups[k] != [])
    && (forall k | 0 <= k < |groups| :: |groups[k]| >= 2 ==> |JoinSpace(groups[k])| <= MaxChunkChars)
    && (forall k | 0 <= k < |groups| - 1 :: |JoinSpace(groups[k])| + 1 + |groups[k + 1][0]| > MaxChunkChars)
  }

  /** The packing loop seen as grouping clauses, `cur` being the clauses of the chunk under construction. */
  function GroupFrom(parts: seq<string>, cur: seq<string>): seq<seq<string>>
    decreases |parts|
  {
    if parts == [] then (if cur != [] then [cur] else [])
    else if |JoinSpace(cur)| + |parts[0]| + 1 <= MaxChunkChars then GroupFrom(parts[1..], cur + [parts[0]])
    else (if cur != [] then [cur] else []) + GroupFrom(parts[1..], [parts[0]])
  }

  /** The chunks of each sentence, sentence by sentence. */
  function PerSentence(ss: seq<string>): seq<seq<string>> {
    seq(|ss|, i requires 0 <= i < |ss| => ChunkSentence(ss[i]))
  }

  lemma {:induction false} FlattenAppend(a: seq<seq<string>>, b: seq<seq<string>>)
    ensures Flatten(a + b) == Flatten(a) + Flatten(b)
  {
    if a == [] {
      assert a + b == b;
    } else {
      assert (a + b)[0] == a[0];
      assert (a + b)[1..] == a[1..] + b;
      FlattenAppend(a[1..], b);
    }
  }

  /** Every element of every group is in the flattened list, and nothing else is. */
  lemma {:induction false} FlattenMembers(groups: seq<seq<string>>)
    ensures forall k, i | 0 <= k < |groups| && 0 <= i < |groups[k]| :: groups[k][i] in Flatten(groups)
    ensures forall x | x in Flatten(groups) :: exists k | 0 <= k < |groups| :: x in groups[k]
  {
    if groups != [] {
      FlattenMembers(groups[1..]);
      assert forall k | 1 <= k < |groups| :: groups[k] == groups[1..][k - 1];
      forall x | x in Flatten(groups) ensures exists k | 0 <= k < |groups| :: x in groups[k] {
        if x !in groups[0] {
          assert x in Flatten(groups[1..]);
          var k :| 0 <= k < |groups[1..]| && x in groups[1..][k];
          assert x in groups[k + 1];
        }
      }
    }
  }

  /** Joining the flattened groups gives the same text as joining the joined groups. */
  lemma {:induction false} JoinFlatten(groups: seq<seq<string>>)
    requires forall k | 0 <= k < |groups| :: groups[k] != []
    ensures JoinSpace(Flatten(groups)) == JoinSpace(MapJoin(groups))
    ensures groups != [] ==> Flatten(groups) != []
  {
    if |groups| == 1 {
      assert Flatten(groups) == groups[0];
      assert MapJoin(groups) == [JoinSpace(groups[0])];
    } else if |groups| >= 2 {
      var rest := groups[1..];
      JoinFlatten(rest);
      assert MapJoin(groups)[1..] == MapJoin(rest);
      JoinAppend(groups[0], Flatten(rest));
    }
  }

  /** Closing the group `cur` in front of a greedy grouping keeps it greedy. */
  lemma GreedyCons(cur: seq<string>, ps: seq<string>, tail: seq<seq<string>>)
    requires GreedyGrouping(ps, tail) && tail != []
    requires cur != [] && (|cur| >= 2 ==> |JoinSpace(cur)| <= MaxChunkChars)
    requires |JoinSpace(cur)| + 1 + |tail[0][0]| > MaxChunkChars
    ensures GreedyGrouping(cur + ps, [cur] + tail)
  {
    var r := [cur] + tail;
    assert r[0] == cur && r[1..] == tail;
    assert forall k | 1 <= k < |r| :: r[k] == tail[k - 1];
  }

  /** The grouping the packing loop follows is greedy. */
  lemma {:induction false} GroupFromGreedy(parts: seq<string>, cur: seq<string>)
    requires |cur| >= 2 ==> |JoinSpace(cur)| <= MaxChunkChars
    ensures GreedyGrouping(cur + parts, GroupFrom(parts, cur))
    ensures cur != [] ==> GroupFrom(parts, cur) != [] && GroupFrom(parts, cur)[0][0] == cur[0]
    decreases |parts|
  {
    if parts == [] {
      assert cur + parts == cur;
    } else {
      var p, rest := parts[0], parts[1..];
      assert parts == [p] + rest;
      if |JoinSpace(cur)| + |p| + 1 <= MaxChunkChars {
        if cur != [] {
          JoinAppend(cur, [p]);
        }
        GroupFromGreedy(rest, cur + [p]);
        assert cur + [p] + rest == cur + parts;
      } else {
        GroupFromGreedy(rest, [p]);
        var tail := GroupFrom(rest, [p]);
        if cur != [] {
          assert GroupFrom(parts, cur) == [cur] + tail;
          GreedyCons(cur, [p] + rest, tail);
          assert cur + ([p] + rest) == cur + parts;
        } else {
          assert GroupFrom(parts, cur) == tail;
          assert cur + parts == [p] + rest;
        }
      }
    }
  }

  /** The packing loop over strings agrees with the grouping of clauses. */
  lemma {:induction false} PackIsGrouping(parts: seq<string>, cur: seq<string>)
    requires forall k | 0 <= k < |parts| :: parts[k] != "" && Normalized(parts[k])
    requires forall k | 0 <= k < |cur| :: cur[k] != "" && Normalized(cur[k])
    ensures PackFrom(parts, JoinSpace(cur)) == MapJoin(GroupFrom(parts, cur))
    decreases |parts|
  {
    NormalizedJoin(cur);
    if parts != [] {
      var p, rest := parts[0], parts[1..];
      assert forall k | 0 <= k < |rest| :: rest[k] == parts[k + 1];
      if |JoinSpace(cur)| + |p| + 1 <= MaxChunkChars {
        var next := cur + [p];
        if cur == [] {
          assert next == [p];
        } else {
          JoinAppend(cur, [p]);
          NormalizedJoin(next);
          StripNormalized(JoinSpace(next));
        }
        PackIsGrouping(rest, next);
      } else {
        assert JoinSpace([p]) == p;
        PackIsGrouping(rest, [p]);
        var tail := GroupFrom(rest, [p]);
        if cur != [] {
          assert MapJoin([cur] + tail) == [JoinSpace(cur)] + MapJoin(tail);
        }
      }
    }
  }

  // ---------------------------------------------------------------------------
  // Sentences

  lemma {:induction false} StripFilterKeeps(pieces: seq<string>)
    requires forall k | 0 <= k < |pieces| :: pieces[k] != "" && Normalized(pieces[k])
    ensures StripFilter(pieces) == pieces
  {
    if pieces != [] {
      StripNormalized(pieces[0]);
      assert forall k | 0 <= k < |pieces[1..]| :: pieces[1..][k] == pieces[k + 1];
      StripFilterKeeps(pieces[1..]);
    }
  }

  /**
   * The first split: blank text has no sentence; otherwise the sentences rejoin to
   * the normalised text, each is non-empty and normalised, none holds a sentence
   * break, and each but the last ends with `.`, `!` or `?`.
   */
  lemma SentencesShape(text: string)
    ensures IsBlank(text) ==> Sentences(text) == []
    ensures !IsBlank(text) ==> Sentences(text) != [] && JoinSpace(Sentences(text)) == Normalize(text)
    ensures !IsBlank(text) ==> forall k | 0 <= k < |Sentences(text)| ::
      Sentences(text)[k] != "" && Normalized(Sentences(text)[k]) && NoBreak(Sentences(text)[k], SentenceMarks)
    ensures forall k | 0 <= k < |Sentences(text)| - 1 ::
      Sentences(text)[k] != "" && Sentences(text)[k][|Sentences(text)[k]| - 1] in SentenceMarks
  {
    var t := Normalize(text);
    NormalizeShape(text);
    SplitAfterShape(t, SentenceMarks);
    if IsBlank(text) {
      assert SplitAfter(t, SentenceMarks) == [""];
      assert Strip("") == "";
    } else {
      StripFilterKeeps(SplitAfter(t, SentenceMarks));
    }
  }

  // ---------------------------------------------------------------------------
  // One sentence

  /**
   * A long sentence is packed greedily: its chunks are its clauses grouped as
   * `GreedyGrouping` describes, each group joined with spaces.
   */
  lemma ChunkSentenceGreedy(s: string)
    requires s != "" && Normalized(s) && |s| > MaxChunkChars
    ensures GreedyGrouping(SplitAfter(s, ClauseMarks), GroupFrom(SplitAfter(s, ClauseMarks), []))
    ensures ChunkSentence(s) == MapJoin(GroupFrom(SplitAfter(s, ClauseMarks), []))
  {
    var parts := SplitAfter(s, ClauseMarks);
    SplitAfterShape(s, ClauseMarks);
    GroupFromGreedy(parts, []);
    assert [] + parts == parts;
    PackIsGrouping(parts, []);
  }

  /**
   * The chunks of one sentence rejoin to the sentence; each is non-empty and
   * normalised, and each is within the limit or is one clause of the sentence.
   */
  lemma ChunkSentenceShape(s: string)
    requires s != "" && Normalized(s)
    ensures ChunkSentence(s) != [] && JoinSpace(ChunkSentence(s)) == s
    ensures forall c | c in ChunkSentence(s) ::
      c != "" && Normalized(c) && (|c| <= MaxChunkChars || c in SplitAfter(s, ClauseMarks))
  {
    if |s| > MaxChunkChars {
      var parts := SplitAfter(s, ClauseMarks);
      var groups := GroupFrom(parts, []);
      ChunkSentenceGreedy(s);
      SplitAfterShape(s, ClauseMarks);
      JoinFlatten(groups);
      FlattenMembers(groups);
      var cs := ChunkSentence(s);
      NormalizedJoin(cs);
      forall c | c in cs ensures |c| <= MaxChunkChars || c in parts {
        var k :| 0 <= k < |cs| && cs[k] == c;
        if |groups[k]| == 1 {
          assert c == groups[k][0];
        }
      }
    }
  }

  lemma ChunkOfSentenceBound(s: string, c: string)
    requires s != "" && Normalized(s) && c in ChunkSentence(s)
    ensures |c| <= MaxChunkChars || NoBreak(c, ClauseMarks)
  {
    ChunkSentenceShape(s);
    SplitAfterShape(s, ClauseMarks);
  }

  // ---------------------------------------------------------------------------
  // All sentences

  lemma {:induction false} ChunkAllIsFlatten(ss: seq<string>)
    ensures ChunkAll(ss) == Flatten(PerSentence(ss))
  {
    if ss != [] {
      var init := ss[..|ss| - 1];
      ChunkAllIsFlatten(init);
      assert PerSentence(ss) == PerSentence(init) + [ChunkSentence(ss[|ss| - 1])];
      FlattenAppend(PerSentence(init), [ChunkSentence(ss[|ss| - 1])]);
      assert Flatten([ChunkSentence(ss[|ss| - 1])]) == ChunkSentence(ss[|ss| - 1]) + [];
    }
  }

  /** The chunks of a list of proper sentences rejoin to the sentences joined. */
  lemma ChunkAllRoundTrip(ss: seq<string>)
    requires forall k | 0 <= k < |ss| :: ss[k] != "" && Normalized(ss[k])
    ensures JoinSpace(ChunkAll(ss)) == JoinSpace(ss)
    ensures ChunkAll(ss) == [] <==> ss == []
  {
    var groups := PerSentence(ss);
    forall k | 0 <= k < |ss| ensures groups[k] != [] && JoinSpace(groups[k]) == ss[k] {
      ChunkSentenceShape(ss[k]);
    }
    ChunkAllIsFlatten(ss);
    JoinFlatten(groups);
    assert MapJoin(groups) == ss;
  }

  /** Where a chunk of non-blank text comes from: one sentence. */
  lemma ChunkOrigin(text: string, c: string)
    requires !IsBlank(text) && c in Chunks(text)
    ensures exists k | 0 <= k < |Sentences(text)| :: c in ChunkSentence(Sentences(text)[k])
  {
    var ss := Sentences(text);
    SentencesShape(text);
    ChunkAllRoundTrip(ss);
    ChunkAllIsFlatten(ss);
    FlattenMembers(PerSentence(ss));
  }

  // ---------------------------------------------------------------------------
  // The properties of split_into_sentences

  /** The result is never empty; whitespace-only text gives the single chunk `""`, and only it does. */
  lemma ChunksNeverEmpty(text: string)
    ensures |Chunks(text)| >= 1
    ensures IsBlank(text) <==> Chunks(text) == [""]
  {
    var ss := Sentences(text);
    SentencesShape(text);
    NormalizeShape(text);
    if !IsBlank(text) {
      ChunkAllRoundTrip(ss);
      ChunkAllIsFlatten(ss);
      ChunkSentenceShape(ss[0]);
      FlattenMembers(PerSentence(ss));
      assert ChunkSentence(ss[0])[0] in Chunks(text);
    }
  }

  /** No character is lost, added or reordered: the chunks joined with spaces are the normalised text. */
  lemma ChunksRoundTrip(text: string)
    ensures JoinSpace(Chunks(text)) == Normalize(text)
  {
    SentencesShape(text);
    NormalizeShape(text);
    if !IsBlank(text) {
      ChunkAllRoundTrip(Sentences(text));
    }
  }

  /**
   * For non-blank text every chunk is non-empty, has no leading, trailing or
   * doubled space, and lies within one sentence.
   */
  lemma ChunksWellFormed(text: string)
    ensures !IsBlank(text) ==> forall c | c in Chunks(text) :: c != "" && Normalized(c) && NoBreak(c, SentenceMarks)
  {
    if !IsBlank(text) {
      var ss := Sentences(text);
      SentencesShape(text);
      forall c | c in Chunks(text) ensures c != "" && Normalized(c) && NoBreak(c, SentenceMarks) {
        ChunkOrigin(text, c);
        var k :| 0 <= k < |ss| && c in ChunkSentence(ss[k]);
        ChunkSentenceShape(ss[k]);
        NoBreakElements(ChunkSentence(ss[k]), SentenceMarks);
      }
    }
  }

  /** Every chunk is at most `MaxChunkChars` long, or else it is a single clause that is itself too long. */
  lemma ChunksSizeBound(text: string)
    ensures forall c | c in Chunks(text) :: |c| <= MaxChunkChars || NoBreak(c, ClauseMarks)
  {
    SentencesShape(text);
    NormalizeShape(text);
    if IsBlank(text) {
      assert Chunks(text) == [""];
    } else {
      var ss := Sentences(text);
      forall c | c in Chunks(text) ensures |c| <= MaxChunkChars || NoBreak(c, ClauseMarks) {
        ChunkOrigin(text, c);
        var k :| 0 <= k < |ss| && c in ChunkSentence(ss[k]);
        ChunkOfSentenceBound(ss[k], c);
      }
    }
  }

  /**
   * For non-blank text the chunks are the sentences' chunks in order: a sentence
   * of at most `MaxChunkChars` characters is one chunk, and a longer one is the
   * greedy packing of its clauses.
   */
  lemma ChunksFollowSentences(text: string)
    requires !IsBlank(text)
    ensures Chunks(text) == Flatten(PerSentence(Sentences(text)))
    ensures forall i | 0 <= i < |Sentences(text)| :: JoinSpace(PerSentence(Sentences(text))[i]) == Sentences(text)[i]
    ensures forall i | 0 <= i < |Sentences(text)| && |Sentences(text)[i]| <= MaxChunkChars ::
      PerSentence(Sentences(text))[i] == [Sentences(text)[i]]
    ensures forall i | 0 <= i < |Sentences(text)| && |Sentences(text)[i]| > MaxChunkChars ::
      var parts := SplitAfter(Sentences(text)[i], ClauseMarks);
      GreedyGrouping(parts, GroupFrom(parts, [])) && PerSentence(Sentences(text))[i] == MapJoin(GroupFrom(parts, []))
  {
    var ss := Sentences(text);
    SentencesShape(text);
    ChunkAllRoundTrip(ss);
    ChunkAllIsFlatten(ss);
    forall i | 0 <= i < |ss| ensures JoinSpace(PerSentence(ss)[i]) == ss[i] {
      ChunkSentenceShape(ss[i]);
    }
    forall i | 0 <= i < |ss| && |ss[i]| > MaxChunkChars
      ensures var parts := SplitAfter(ss[i], ClauseMarks);
        GreedyGrouping(parts, GroupFrom(parts, [])) && PerSentence(ss)[i] == MapJoin(GroupFrom(parts, []))
    {
      ChunkSentenceGreedy(ss[i]);
    }
  }
}
