/**
 * The two text codecs of a notification record's composite fields
 * (panels/notification/common/notifyentity.cpp):
 *  - the action list, joined on `|` without a trailing delimiter, and split back on `|`;
 *  - the hint map, written as `key!!!value|` per entry in ascending key order, and parsed back
 *    chunk by chunk, dropping every chunk that does not split on `!!!` into exactly two parts.
 */
module NotifyCodec {
  import opened Strings
  import opened Wrappers

  const ActionSegment: char := '|'
  const HintSegment: char := '|'
  const KeyValueSegment: string := "!!!"

  // ----------------------------------------------------------------------------------------
  // Actions
  // ----------------------------------------------------------------------------------------

  /** `convertActionsToString`: append every token followed by `|`, then drop the final `|`. */
  method ConvertActionsToString(actions: seq<string>) returns (action: string)
    ensures action == Join(actions, ActionSegment)
  {
    action := "";
    for i := 0 to |actions|
      invariant action == if i == 0 then "" else Join(actions[..i], ActionSegment) + [ActionSegment]
    {
      action := action + actions[i];
      action := action + [ActionSegment];
      assert actions[..i + 1] == actions[..i] + [actions[i]];
      if i > 0 {
        JoinSnoc(actions[..i], actions[i], ActionSegment);
      }
    }
    assert actions[..|actions|] == actions;
    if action != "" {
      action := action[..|action| - 1];
    }
  }

  /**
   * `parseAction`: the empty string is the empty list; any other string is split on `|`,
   * empty parts kept. The result is the one list of `|`-free tokens whose join is the input.
   */
  function ParseAction(action: string): (actions: seq<string>)
    ensures action == "" ==> actions == []
    ensures action != "" ==> Join(actions, ActionSegment) == action
    ensures action != "" ==> |actions| == Count(action, ActionSegment) + 1
    ensures FreeOf(actions, ActionSegment)
  {
    if action == "" then []
    else
      JoinSplit(action, ActionSegment);
      SplitCount(action, ActionSegment);
      Split(action, ActionSegment)
  }

  /** The actions come in (id, label) pairs: what the debug assertion in `parseAction` checks. */
  predicate Paired(actions: seq<string>)
  {
    |actions| % 2 == 0
  }

  /** The pairing assertion of `parseAction` holds exactly when the text is empty or has an odd number of `|`. */
  lemma ParseActionPaired(action: string)
    ensures Paired(ParseAction(action)) <==> action == "" || Count(action, ActionSegment) % 2 == 1
  {
  }

  /** Actions round-trip when no token contains `|` and the list is not the single empty token. */
  lemma ActionsRoundTrip(actions: seq<string>)
    requires FreeOf(actions, ActionSegment)
    requires actions != [""]
    ensures ParseAction(Join(actions, ActionSegment)) == actions
  {
    JoinEmpty(actions, ActionSegment);
    if actions != [] {
      SplitJoin(actions, ActionSegment);
    }
  }

  /** The edge case of the round trip: a single empty token encodes to "" and decodes to no tokens. */
  lemma ActionsSingleEmptyTokenLost()
    ensures Join([""], ActionSegment) == ""
    ensures ParseAction(Join([""], ActionSegment)) == []
  {
  }

  /** Encoding loses nothing for `|`-free tokens: two such lists with the same text are equal. */
  lemma ActionsEncodingInjective(xs: seq<string>, ys: seq<string>)
    requires FreeOf(xs, ActionSegment) && FreeOf(ys, ActionSegment)
    requires xs != [""] && ys != [""]
    requires Join(xs, ActionSegment) == Join(ys, ActionSegment)
    ensures xs == ys
  {
    ActionsRoundTrip(xs);
    ActionsRoundTrip(ys);
  }

  // ----------------------------------------------------------------------------------------
  // Hints: a QMap<QString, QString>, kept as its entries in strictly ascending key order
  // ----------------------------------------------------------------------------------------

  type HintEntry = (string, string)

  /** Consecutive keys are strictly ascending. */
  predicate KeysAscending(m: seq<HintEntry>)
  {
    forall i :: 0 <= i < |m| - 1 ==> Less(m[i].0, m[i + 1].0)
  }

  /** A QMap's entries as its iterator visits them: keys strictly ascending, hence unique. */
  type HintMap = m: seq<HintEntry> | KeysAscending(m) witness []

  /** `map.value(key)` when present. */
  function Lookup(m: seq<HintEntry>, key: string): Option<string>
  {
    if m == [] then None
    else if m[0].0 == key then Some(m[0].1)
    else Lookup(m[1..], key)
  }

  /** Every key of an ascending map is below every later key. */
  lemma {:induction false} AscendingIsStrict(m: HintMap, i: int, j: int)
    requires 0 <= i < j < |m|
    ensures Less(m[i].0, m[j].0)
    decreases j - i
  {
    if i + 1 < j {
      AscendingIsStrict(m, i + 1, j);
      LessTransitive(m[i].0, m[i + 1].0, m[j].0);
    }
  }

  /** `map.insert(key, value)`: overwrite the entry for `key`, or add it at its place in key order. */
  function Insert(m: HintMap, key: string, value: string): (r: HintMap)
    ensures Lookup(r, key) == Some(value)
    ensures forall k :: k != key ==> Lookup(r, k) == Lookup(m, k)
    ensures r[0].0 == key || (m != [] && r[0].0 == m[0].0)
  {
    if m == [] then [(key, value)]
    else if m[0].0 == key then [(key, value)] + m[1..]
    else if Less(key, m[0].0) then [(key, value)] + m
    else
      LessTotal(key, m[0].0);
      [m[0]] + Insert(m[1..], key, value)
  }

  /** Inserting a key above every present key appends its entry. */
  lemma {:induction false} InsertAbove(m: HintMap, key: string, value: string)
    requires m == [] || Less(m[|m| - 1].0, key)
    ensures Insert(m, key, value) == m + [(key, value)]
  {
    if m != [] {
      if |m| > 1 {
        AscendingIsStrict(m, 0, |m| - 1);
        LessTransitive(m[0].0, m[|m| - 1].0, key);
      }
      LessIrreflexive(key);
      if Less(key, m[0].0) {
        LessTransitive(key, m[0].0, key);
      }
      InsertAbove(m[1..], key, value);
      assert [m[0]] + (m[1..] + [(key, value)]) == m + [(key, value)];
    }
  }

  /** The text of one entry: `key!!!value|`. */
  function EntryText(e: HintEntry): string
  {
    e.0 + KeyValueSegment + e.1 + [HintSegment]
  }

  /** The entries' texts, one after the other, in iteration order. */
  function HintsText(m: seq<HintEntry>): string
  {
    if m == [] then "" else HintsText(m[..|m| - 1]) + EntryText(m[|m| - 1])
  }

  /** `convertHintsToString`: walk the map in key order, appending `key`, `!!!`, `value` and `|`. */
  method ConvertHintsToString(hints: HintMap) returns (text: string)
    ensures text == HintsText(hints)
    ensures hints != [] ==> text != [] && text[|text| - 1] == HintSegment
  {
    text := "";
    for i := 0 to |hints|
      invariant text == HintsText(hints[..i])
    {
      var (key, value) := hints[i];
      text := text + key;
      text := text + KeyValueSegment;
      text := text + value;
      text := text + [HintSegment];
      assert hints[..i + 1][..i] == hints[..i];
    }
    assert hints[..|hints|] == hints;
  }

  /** Texts of a map whose first entry is `e`: that entry's text comes first. */
  lemma {:induction false} HintsTextCons(e: HintEntry, m: seq<HintEntry>)
    ensures HintsText([e] + m) == EntryText(e) + HintsText(m)
    decreases |m|
  {
    if m != [] {
      var l := [e] + m;
      assert l[..|l| - 1] == [e] + m[..|m| - 1];
      HintsTextCons(e, m[..|m| - 1]);
    }
  }

  /** One `|`-chunk read as an entry: present only when it splits on `!!!` into exactly two parts. */
  function ChunkEntry(chunk: string): Option<HintEntry>
  {
    var list := SplitOn(chunk, KeyValueSegment);
    if |list| != 2 then None else Some((list[0], list[1]))
  }

  /** Insert the entries of the well-formed chunks, first to last; skip the others. */
  function InsertChunks(m: HintMap, chunks: seq<string>): HintMap
    decreases chunks
  {
    if chunks == [] then m
    else
      var next := match ChunkEntry(chunks[0])
        case None => m
        case Some(e) => Insert(m, e.0, e.1);
      InsertChunks(next, chunks[1..])
  }

  /** The value that the last well-formed chunk with this key gives it, if any chunk does. */
  function LastValue(chunks: seq<string>, key: string): Option<string>
  {
    if chunks == [] then None
    else
      var later := LastValue(chunks[1..], key);
      if later.Some? then later
      else match ChunkEntry(chunks[0])
        case Some(e) => if e.0 == key then Some(e.1) else None
        case None => None
  }

  /** The map `parseHint` builds: empty for the empty string, else the chunks inserted in order. */
  function ParsedHints(hint: string): HintMap
  {
    if hint == "" then [] else InsertChunks([], Split(hint, HintSegment))
  }

  /** `parseHint`: split on `|`, split each chunk on `!!!`, keep exactly the two-part chunks. */
  method ParseHint(hint: string) returns (hints: HintMap)
    ensures hints == ParsedHints(hint)
    ensures forall key :: Lookup(hints, key) == if hint == "" then None else LastValue(Split(hint, HintSegment), key)
  {
    if hint == "" {
      return [];
    }
    hints := [];
    var keyValueList := Split(hint, HintSegment);
    for j := 0 to |keyValueList|
      invariant InsertChunks(hints, keyValueList[j..]) == InsertChunks([], keyValueList)
    {
      assert keyValueList[j..][1..] == keyValueList[j + 1..];
      var list := SplitOn(keyValueList[j], KeyValueSegment);
      if |list| != 2 {
        continue;
      }
      hints := Insert(hints, list[0], list[1]);
    }
    forall key | true
      ensures Lookup(hints, key) == LastValue(keyValueList, key)
    {
      InsertChunksLookup([], keyValueList, key);
    }
  }

  /** A key's value after inserting chunks: the last well-formed chunk's, else the one it had. */
  lemma {:induction false} InsertChunksLookup(m: HintMap, chunks: seq<string>, key: string)
    ensures Lookup(InsertChunks(m, chunks), key)
         == if LastValue(chunks, key).Some? then LastValue(chunks, key) else Lookup(m, key)
    decreases chunks
  {
    if chunks != [] {
      var next := match ChunkEntry(chunks[0])
        case None => m
        case Some(e) => Insert(m, e.0, e.1);
      InsertChunksLookup(next, chunks[1..], key);
    }
  }

  /** The chunk `key!!!value` of a key and value free of `!` reads back as that entry. */
  lemma ChunkOfEntry(key: string, value: string)
    requires '!' !in key && '!' !in value
    ensures ChunkEntry(key + KeyValueSegment + value) == Some((key, value))
  {
    SplitOnAfterToken(key, KeyValueSegment, value);
    SplitOnFree(value, KeyValueSegment);
  }

  /** The last value of a key over two runs of chunks: the second run's if it has one. */
  lemma {:induction false} LastValueAppend(xs: seq<string>, ys: seq<string>, key: string)
    ensures LastValue(xs + ys, key) == if LastValue(ys, key).Some? then LastValue(ys, key) else LastValue(xs, key)
  {
    if xs == [] {
      assert xs + ys == ys;
    } else {
      assert (xs + ys)[1..] == xs[1..] + ys;
      LastValueAppend(xs[1..], ys, key);
    }
  }

  /** Whatever precedes it, a final well-formed chunk `key!!!value` decides the value of `key`. */
  lemma LaterDuplicateWins(earlier: string, key: string, value: string)
    requires '|' !in key && '!' !in key && '|' !in value && '!' !in value
    ensures Lookup(ParsedHints(earlier + [HintSegment] + key + KeyValueSegment + value), key) == Some(value)
  {
    var chunk := key + KeyValueSegment + value;
    var s := earlier + [HintSegment] + chunk;
    assert s == earlier + [HintSegment] + key + KeyValueSegment + value;
    assert '|' !in chunk;
    var chunks := Split(s, HintSegment);
    assert chunks == Split(earlier, HintSegment) + [chunk] by {
      SplitConcat(earlier, HintSegment, chunk);
      SplitFree(chunk, HintSegment);
    }
    assert LastValue([chunk], key) == Some(value) by {
      ChunkOfEntry(key, value);
    }
    LastValueAppend(Split(earlier, HintSegment), [chunk], key);
    assert ParsedHints(s) == InsertChunks([], chunks);
    InsertChunksLookup([], chunks, key);
  }

  /** A final chunk without `|` that does not split into exactly two parts changes no key's value. */
  lemma MalformedChunkIgnored(earlier: string, chunk: string, key: string)
    requires '|' !in chunk && ChunkEntry(chunk).None?
    ensures Lookup(ParsedHints(earlier + [HintSegment] + chunk), key) == Lookup(ParsedHints(earlier), key)
  {
    var s := earlier + [HintSegment] + chunk;
    SplitConcat(earlier, HintSegment, chunk);
    SplitFree(chunk, HintSegment);
    LastValueAppend(Split(earlier, HintSegment), [chunk], key);
    InsertChunksLookup([], Split(s, HintSegment), key);
    InsertChunksLookup([], Split(earlier, HintSegment), key);
  }

  /** Hint maps that the text format can carry: no key or value contains `|` or `!`. */
  predicate Encodable(m: seq<HintEntry>)
  {
    forall i :: 0 <= i < |m| ==> '|' !in m[i].0 && '!' !in m[i].0 && '|' !in m[i].1 && '!' !in m[i].1
  }

  /** The text of a non-empty encodable map splits into its first entry's chunk and the rest's chunks. */
  lemma SplitHintsText(m: seq<HintEntry>)
    requires m != [] && Encodable(m)
    ensures Split(HintsText(m), HintSegment) == [m[0].0 + KeyValueSegment + m[0].1] + Split(HintsText(m[1..]), HintSegment)
  {
    var e := m[0];
    var chunk := e.0 + KeyValueSegment + e.1;
    assert m == [e] + m[1..];
    HintsTextCons(e, m[1..]);
    assert HintsText(m) == chunk + [HintSegment] + HintsText(m[1..]);
    assert '|' !in chunk;
    SplitAfterToken(chunk, HintSegment, HintsText(m[1..]));
  }

  /** Reading one well-formed chunk inserts its entry before the remaining chunks are read. */
  lemma InsertChunksCons(acc: HintMap, chunk: string, rest: seq<string>, e: HintEntry)
    requires ChunkEntry(chunk) == Some(e)
    ensures InsertChunks(acc, [chunk] + rest) == InsertChunks(Insert(acc, e.0, e.1), rest)
  {
    assert ([chunk] + rest)[1..] == rest;
  }

  /** The `key!!!value` chunk of each entry, in order. */
  function EntryChunks(m: seq<HintEntry>): seq<string>
  {
    if m == [] then [] else [m[0].0 + KeyValueSegment + m[0].1] + EntryChunks(m[1..])
  }

  /** The hints text splits on `|` into the entries' chunks and an empty last part. */
  lemma {:induction false} SplitHintsTextChunks(m: seq<HintEntry>)
    requires Encodable(m)
    ensures Split(HintsText(m), HintSegment) == EntryChunks(m) + [""]
  {
    if m == [] {
      assert Split("", HintSegment) == [""];
    } else {
      SplitHintsText(m);
      assert Encodable(m[1..]);
      SplitHintsTextChunks(m[1..]);
    }
  }

  /** The empty last part is a malformed chunk: reading it inserts nothing. */
  lemma EmptyChunkAddsNothing(acc: HintMap)
    ensures InsertChunks(acc, EntryChunks([]) + [""]) == acc
  {
    assert SplitOn("", KeyValueSegment) == [""];
    assert EntryChunks([]) + [""] == [""];
    assert InsertChunks(acc, [""]) == InsertChunks(acc, []);
  }

  /** Reading the first entry's chunk appends that entry, when it lies above every key of `acc`. */
  lemma FirstChunkRead(acc: HintMap, m: HintMap) returns (acc': HintMap)
    requires m != [] && Encodable(m)
    requires acc == [] || Less(acc[|acc| - 1].0, m[0].0)
    ensures acc' == acc + [m[0]]
    ensures InsertChunks(acc, EntryChunks(m) + [""]) == InsertChunks(acc', EntryChunks(m[1..]) + [""])
  {
    var e := m[0];
    ChunkOfEntry(e.0, e.1);
    assert EntryChunks(m) + [""] == [e.0 + KeyValueSegment + e.1] + (EntryChunks(m[1..]) + [""]);
    InsertChunksCons(acc, e.0 + KeyValueSegment + e.1, EntryChunks(m[1..]) + [""], e);
    InsertAbove(acc, e.0, e.1);
    acc' := acc + [e];
  }

  /** Reading the chunks of ascending entries above every key of `acc` appends them to `acc`. */
  lemma {:induction false} InsertEntryChunks(acc: HintMap, m: HintMap)
    requires Encodable(m)
    requires acc == [] || m == [] || Less(acc[|acc| - 1].0, m[0].0)
    ensures InsertChunks(acc, EntryChunks(m) + [""]) == acc + m
    decreases |m|
  {
    if m == [] {
      EmptyChunkAddsNothing(acc);
    } else {
      var rest := m[1..];
      var acc' := FirstChunkRead(acc, m);
      assert rest == [] || Less(acc'[|acc'| - 1].0, rest[0].0);
      assert Encodable(rest);
      InsertEntryChunks(acc', rest);
      assert acc' + rest == acc + m;
    }
  }

  /** Hints round-trip for maps whose keys and values contain neither `|` nor `!`. */
  lemma HintsRoundTrip(m: HintMap)
    requires Encodable(m)
    ensures ParsedHints(HintsText(m)) == m
  {
    if m != [] {
      SplitHintsTextChunks(m);
      InsertEntryChunks([], m);
    }
  }
}
