/** The checkpoint handling of the super-resolution inferencer
    (`DLSS/inference.py`, `_load_checkpoint`): which part of a loaded
    checkpoint is taken as the state dict, and how its parameter names are
    rewritten to the generator's names. */
module DlssCheckpoint {
  import opened Wrappers

  // ---------------------------------------------------------------------
  // Occurrences, Python's str.replace and str.split

  /** `pat` occurs in `s` at position `p`. */
  predicate OccursAt<T(==)>(s: seq<T>, p: nat, pat: seq<T>) {
    p + |pat| <= |s| && s[p..p + |pat|] == pat
  }

  /** `pat in s` for strings. */
  predicate Contains<T(==)>(s: seq<T>, pat: seq<T>) {
    exists p: nat | p + |pat| <= |s| :: OccursAt(s, p, pat)
  }

  /** `s.replace(pat, rep)`: every occurrence of `pat`, found left to
      right without overlap, replaced by `rep`. */
  function ReplaceAll<T(==)>(s: seq<T>, pat: seq<T>, rep: seq<T>): seq<T>
    requires pat != []
    decreases |s|
  {
    if |s| < |pat| then s
    else if pat <= s then rep + ReplaceAll(s[|pat|..], pat, rep)
    else [s[0]] + ReplaceAll(s[1..], pat, rep)
  }

  /** `s.split(pat)`: the pieces between the occurrences of `pat`. */
  function SplitAll<T(==)>(s: seq<T>, pat: seq<T>): (pieces: seq<seq<T>>)
    requires pat != []
    ensures |pieces| >= 1
    decreases |s|
  {
    if |s| < |pat| then [s]
    else if pat <= s then [[]] + SplitAll(s[|pat|..], pat)
    else
      var rest := SplitAll(s[1..], pat);
      [[s[0]] + rest[0]] + rest[1..]
  }

  /** `sep.join(pieces)`. */
  function Join<T>(sep: seq<T>, pieces: seq<seq<T>>): seq<T>
    decreases |pieces|
  {
    if pieces == [] then []
    else if |pieces| == 1 then pieces[0]
    else pieces[0] + sep + Join(sep, pieces[1..])
  }

  /** The first piece of a split is a prefix of the text. */
  lemma {:induction false} SplitFirstPrefix<T>(s: seq<T>, pat: seq<T>)
    requires pat != []
    ensures SplitAll(s, pat)[0] <= s
    decreases |s|
  {
    if |s| >= |pat| && !(pat <= s) {
      SplitFirstPrefix(s[1..], pat);
    }
  }

  /** Splitting at `pat` and joining with `pat` gives the text back. */
  lemma {:induction false} SplitJoin<T>(s: seq<T>, pat: seq<T>)
    requires pat != []
    ensures Join(pat, SplitAll(s, pat)) == s
    decreases |s|
  {
    if |s| < |pat| {
    } else if pat <= s {
      var rest := SplitAll(s[|pat|..], pat);
      SplitJoin(s[|pat|..], pat);
      assert SplitAll(s, pat) == [[]] + rest;
      JoinEmptyFront(pat, rest);
      assert s == pat + s[|pat|..];
    } else {
      var rest := SplitAll(s[1..], pat);
      SplitJoin(s[1..], pat);
      assert SplitAll(s, pat) == [[s[0]] + rest[0]] + rest[1..];
      JoinCons(pat, s[0], rest);
      assert s == [s[0]] + s[1..];
    }
  }

  /** Joining after an empty first piece starts with the separator. */
  lemma JoinEmptyFront<T>(sep: seq<T>, pieces: seq<seq<T>>)
    requires |pieces| >= 1
    ensures Join(sep, [[]] + pieces) == sep + Join(sep, pieces)
  {
    assert ([[]] + pieces)[1..] == pieces;
  }

  /** Joining after gluing one element to the front of the first piece. */
  lemma JoinCons<T>(sep: seq<T>, x: T, pieces: seq<seq<T>>)
    requires |pieces| >= 1
    ensures Join(sep, [[x] + pieces[0]] + pieces[1..]) == [x] + Join(sep, pieces)
  {
    var glued := [[x] + pieces[0]] + pieces[1..];
    assert glued[1..] == pieces[1..];
  }

  /** No piece of a split contains the pattern. */
  lemma {:induction false} SplitPiecesFree<T>(s: seq<T>, pat: seq<T>)
    requires pat != []
    ensures forall i | 0 <= i < |SplitAll(s, pat)| :: !Contains(SplitAll(s, pat)[i], pat)
    decreases |s|
  {
    var pieces := SplitAll(s, pat);
    if |s| < |pat| {
    } else if pat <= s {
      SplitPiecesFree(s[|pat|..], pat);
      assert forall i | 1 <= i < |pieces| :: pieces[i] == SplitAll(s[|pat|..], pat)[i - 1];
    } else {
      var rest := SplitAll(s[1..], pat);
      assert pieces == [[s[0]] + rest[0]] + rest[1..];
      SplitPiecesFree(s[1..], pat);
      SplitFirstPrefix(s[1..], pat);
      assert forall i | 1 <= i < |pieces| :: pieces[i] == rest[i];
      FirstPieceFree(s, pat, rest[0]);
    }
  }

  /** Gluing the first element of the text to a pattern-free prefix of the
      rest keeps it pattern-free when the text does not start with `pat`. */
  lemma FirstPieceFree<T>(s: seq<T>, pat: seq<T>, piece: seq<T>)
    requires pat != [] && |pat| <= |s| && !(pat <= s)
    requires piece <= s[1..] && !Contains(piece, pat)
    ensures !Contains([s[0]] + piece, pat)
  {
    var first := [s[0]] + piece;
    assert first <= s;
    forall p: nat | p + |pat| <= |first|
      ensures !OccursAt(first, p, pat)
    {
      if p == 0 {
        assert first[..|pat|] == s[..|pat|];
      } else {
        assert first[p..p + |pat|] == piece[p - 1..p - 1 + |pat|];
        assert !OccursAt(piece, p - 1, pat);
      }
    }
  }

  /** `str.replace` is splitting at the pattern and joining with the
      replacement: every occurrence, and nothing else, is replaced. */
  lemma {:induction false} ReplaceIsSplitJoin<T>(s: seq<T>, pat: seq<T>, rep: seq<T>)
    requires pat != []
    ensures ReplaceAll(s, pat, rep) == Join(rep, SplitAll(s, pat))
    decreases |s|
  {
    if |s| < |pat| {
    } else if pat <= s {
      ReplaceIsSplitJoin(s[|pat|..], pat, rep);
    } else {
      ReplaceIsSplitJoin(s[1..], pat, rep);
      JoinCons(rep, s[0], SplitAll(s[1..], pat));
    }
  }

  /** A text without the pattern is left unchanged by `str.replace`. */
  lemma {:induction false} ReplaceAbsent<T>(s: seq<T>, pat: seq<T>, rep: seq<T>)
    requires pat != [] && !Contains(s, pat)
    ensures ReplaceAll(s, pat, rep) == s
  {
    SplitPiecesFree(s, pat);
    SplitJoin(s, pat);
    ReplaceIsSplitJoin(s, pat, rep);
    if |SplitAll(s, pat)| > 1 {
      var pieces := SplitAll(s, pat);
      assert OccursAt(s, |pieces[0]|, pat) by {
        assert s == pieces[0] + pat + Join(pat, pieces[1..]);
        assert s[|pieces[0]|..|pieces[0]| + |pat|] == pat;
      }
    }
  }

  /** Replacing at a text that starts with the pattern puts the
      replacement first. */
  lemma ReplaceAtFront<T>(s: seq<T>, pat: seq<T>, rep: seq<T>)
    requires pat != [] && pat <= s
    ensures rep <= ReplaceAll(s, pat, rep)
  {
  }

  // ---------------------------------------------------------------------
  // Key conversion

  const GeneratorPrefix: string := "generator."

  /** The layer names that put a key under `generator.`, checked in this
      order. */
  const PrefixMarkers: seq<string> := ["conv_body", "conv_first", "upconv", "conv_hr", "conv_last"]

  /** A key starting with `generator.` loses every `generator.` in it. */
  function StripGenerator(k: string): string {
    if GeneratorPrefix <= k then ReplaceAll(k, GeneratorPrefix, "") else k
  }

  /** `.body.` becomes `.rrdb_blocks.` everywhere; only a key without
      `.body.` that starts with `body.` has its `body.`s turned into
      `generator.rrdb_blocks.`. */
  function RenameBody(k: string): string {
    if Contains(k, ".body.") then ReplaceAll(k, ".body.", ".rrdb_blocks.")
    else if "body." <= k then ReplaceAll(k, "body.", "generator.rrdb_blocks.")
    else k
  }

  /** The checks against each marker in turn: a key that contains the
      marker and does not yet start with `generator.` gets that prefix. */
  function AddPrefixes(k: string, markers: seq<string>): string
    decreases |markers|
  {
    if markers == [] then k
    else
      var next := if Contains(k, markers[0]) && !(GeneratorPrefix <= k) then GeneratorPrefix + k else k;
      AddPrefixes(next, markers[1..])
  }

  /** The new name of a state-dict key. */
  function ConvertKey(k: string): string {
    AddPrefixes(RenameBody(StripGenerator(k)), PrefixMarkers)
  }

  /** Removing `generator.` from a key that starts with it: the key is the
      pieces between its occurrences of `generator.`, none of which
      contains it, and the result is those pieces run together. */
  lemma StripGeneratorShape(k: string)
    ensures GeneratorPrefix <= k ==>
      k == Join(GeneratorPrefix, SplitAll(k, GeneratorPrefix)) &&
      StripGenerator(k) == Join("", SplitAll(k, GeneratorPrefix)) &&
      (forall i | 0 <= i < |SplitAll(k, GeneratorPrefix)| :: !Contains(SplitAll(k, GeneratorPrefix)[i], GeneratorPrefix))
    ensures !(GeneratorPrefix <= k) ==> StripGenerator(k) == k
  {
    if GeneratorPrefix <= k {
      SplitJoin(k, GeneratorPrefix);
      SplitPiecesFree(k, GeneratorPrefix);
      ReplaceIsSplitJoin(k, GeneratorPrefix, "");
    }
  }

  /** With `.body.` in the key every occurrence becomes `.rrdb_blocks.`;
      only without it does a leading `body.` make the key start with
      `generator.rrdb_blocks.`; any other key is unchanged. */
  lemma RenameBodyShape(k: string)
    ensures Contains(k, ".body.") ==>
      RenameBody(k) == Join(".rrdb_blocks.", SplitAll(k, ".body.")) &&
      (forall i | 0 <= i < |SplitAll(k, ".body.")| :: !Contains(SplitAll(k, ".body.")[i], ".body."))
    ensures !Contains(k, ".body.") && "body." <= k ==>
      "generator.rrdb_blocks." <= RenameBody(k) &&
      RenameBody(k) == Join("generator.rrdb_blocks.", SplitAll(k, "body."))
    ensures !Contains(k, ".body.") && !("body." <= k) ==> RenameBody(k) == k
  {
    if Contains(k, ".body.") {
      ReplaceIsSplitJoin(k, ".body.", ".rrdb_blocks.");
      SplitPiecesFree(k, ".body.");
    } else if "body." <= k {
      ReplaceIsSplitJoin(k, "body.", "generator.rrdb_blocks.");
      ReplaceAtFront(k, "body.", "generator.rrdb_blocks.");
    }
  }

  /** A key that already starts with `generator.` passes the marker checks
      unchanged. */
  lemma {:induction false} AddPrefixesKeep(k: string, markers: seq<string>)
    requires GeneratorPrefix <= k
    ensures AddPrefixes(k, markers) == k
    decreases |markers|
  {
    if markers != [] {
      AddPrefixesKeep(k, markers[1..]);
    }
  }

  /** The marker checks add `generator.` at most once; the result starts
      with `generator.` when the key contains a marker, and the key is
      unchanged when it contains none or already starts with
      `generator.`. */
  lemma {:induction false} AddPrefixesShape(k: string, markers: seq<string>)
    ensures AddPrefixes(k, markers) == k || AddPrefixes(k, markers) == GeneratorPrefix + k
    ensures (exists i | 0 <= i < |markers| :: Contains(k, markers[i])) ==> GeneratorPrefix <= AddPrefixes(k, markers)
    ensures (forall i | 0 <= i < |markers| :: !Contains(k, markers[i])) ==> AddPrefixes(k, markers) == k
    ensures GeneratorPrefix <= k ==> AddPrefixes(k, markers) == k
    decreases |markers|
  {
    if markers != [] {
      if GeneratorPrefix <= k {
        AddPrefixesKeep(k, markers);
      } else if Contains(k, markers[0]) {
        AddPrefixesKeep(GeneratorPrefix + k, markers[1..]);
      } else {
        AddPrefixesShape(k, markers[1..]);
        assert forall i | 1 <= i < |markers| :: markers[i] == markers[1..][i - 1];
      }
    }
  }

  /** A converted key is the renamed key, with `generator.` in front at
      most once: exactly when it names one of the marked layers and did not
      already start with `generator.`. */
  lemma ConvertKeyShape(k: string)
    ensures var renamed := RenameBody(StripGenerator(k));
      (ConvertKey(k) == renamed || ConvertKey(k) == GeneratorPrefix + renamed) &&
      ((exists i | 0 <= i < |PrefixMarkers| :: Contains(renamed, PrefixMarkers[i])) ==> GeneratorPrefix <= ConvertKey(k)) &&
      ((forall i | 0 <= i < |PrefixMarkers| :: !Contains(renamed, PrefixMarkers[i])) ==> ConvertKey(k) == renamed)
  {
    AddPrefixesShape(RenameBody(StripGenerator(k)), PrefixMarkers);
  }

  // ---------------------------------------------------------------------
  // Insertion-ordered dictionaries

  /** A Python dict: its items in insertion order. */
  type Dict<K, V> = seq<(K, V)>

  predicate DistinctKeys<K(==), V>(d: Dict<K, V>) {
    forall i, j | 0 <= i < j < |d| :: d[i].0 != d[j].0
  }

  /** `d[k]`, or `None` when `k` is absent. */
  function Lookup<K(==), V>(d: Dict<K, V>, k: K): (r: Option<V>)
    ensures r.None? <==> forall i | 0 <= i < |d| :: d[i].0 != k
  {
    if d == [] then None
    else if d[0].0 == k then Some(d[0].1)
    else Lookup(d[1..], k)
  }

  /** `d[k] = v`: an existing key keeps its place and takes the new value;
      a new key goes at the end. */
  function Assign<K(==), V>(d: Dict<K, V>, k: K, v: V): Dict<K, V> {
    if d == [] then [(k, v)]
    else if d[0].0 == k then [(k, v)] + d[1..]
    else [d[0]] + Assign(d[1..], k, v)
  }

  /** After `d[k] = v` the keys stay distinct, `k` maps to `v`, and every
      other key keeps its value. */
  lemma {:induction false} AssignShape<K, V>(d: Dict<K, V>, k: K, v: V)
    requires DistinctKeys(d)
    ensures DistinctKeys(Assign(d, k, v))
    ensures Lookup(Assign(d, k, v), k) == Some(v)
    ensures forall k' | k' != k :: Lookup(Assign(d, k, v), k') == Lookup(d, k')
  {
    if d != [] && d[0].0 != k {
      AssignShape(d[1..], k, v);
      var rest := Assign(d[1..], k, v);
      assert Assign(d, k, v) == [d[0]] + rest;
      assert forall i | 0 <= i < |d[1..]| :: d[1..][i].0 != d[0].0;
      assert Lookup(rest, d[0].0) == None;
    } else if d != [] {
      assert Assign(d, k, v)[1..] == d[1..];
    }
  }

  /** Assigning each `(key, value)` pair in turn to an empty dict. */
  function AssignAll<K(==), V>(pairs: seq<(K, V)>): Dict<K, V>
    decreases |pairs|
  {
    if pairs == [] then []
    else
      var last := pairs[|pairs| - 1];
      Assign(AssignAll(pairs[..|pairs| - 1]), last.0, last.1)
  }

  /** Assigning one more pair. */
  lemma AssignAllStep<K, V>(pairs: seq<(K, V)>, n: nat)
    requires n < |pairs|
    ensures AssignAll(pairs[..n + 1]) == Assign(AssignAll(pairs[..n]), pairs[n].0, pairs[n].1)
  {
    assert pairs[..n + 1][..n] == pairs[..n];
  }

  /** The index of the last pair with key `k`, or -1 when there is none. */
  function LastKey<K(==), V>(pairs: seq<(K, V)>, k: K): (r: int)
    ensures -1 <= r < |pairs|
    ensures r >= 0 ==> pairs[r].0 == k
    ensures forall j | r < j < |pairs| :: pairs[j].0 != k
    decreases |pairs|
  {
    if pairs == [] then -1
    else if pairs[|pairs| - 1].0 == k then |pairs| - 1
    else LastKey(pairs[..|pairs| - 1], k)
  }

  /** After assigning every pair the keys are distinct, and each key maps
      to the value of the last pair that has it; a key no pair has is
      absent. */
  lemma {:induction false} AssignAllLastWins<K, V>(pairs: seq<(K, V)>, k: K)
    ensures DistinctKeys(AssignAll(pairs))
    ensures var j := LastKey(pairs, k);
      Lookup(AssignAll(pairs), k) == if j < 0 then None else Some(pairs[j].1)
    decreases |pairs|
  {
    if pairs != [] {
      var n := |pairs| - 1;
      var init := pairs[..n];
      AssignAllLastWins(init, k);
      AssignShape(AssignAll(init), pairs[n].0, pairs[n].1);
    }
  }

  // ---------------------------------------------------------------------
  // The checkpoint and the state dict

  /** A value stored in a checkpoint: a tensor, or a nested dict. */
  datatype Value<T> = Tensor(t: T) | Nested(items: Dict<string, Value<T>>)

  /** The keys under which a checkpoint may hold its state dict, in the
      order they are tried. */
  const StateDictKeys: seq<string> := ["model_state_dict", "params_ema", "params"]

  /** The state dict of a loaded checkpoint: the value under
      `model_state_dict`, else under `params_ema`, else under `params`,
      else the whole checkpoint. */
  function SelectStateDict<T>(checkpoint: Dict<string, Value<T>>): Value<T> {
    if Lookup(checkpoint, "model_state_dict").Some? then Lookup(checkpoint, "model_state_dict").value
    else if Lookup(checkpoint, "params_ema").Some? then Lookup(checkpoint, "params_ema").value
    else if Lookup(checkpoint, "params").Some? then Lookup(checkpoint, "params").value
    else Nested(checkpoint)
  }

  /** The state dict is the value under the first of the three keys that
      the checkpoint has, or the whole checkpoint when it has none. */
  lemma SelectStateDictShape<T>(checkpoint: Dict<string, Value<T>>)
    ensures var sd := SelectStateDict(checkpoint);
      (exists i | 0 <= i < |StateDictKeys| ::
         Lookup(checkpoint, StateDictKeys[i]) == Some(sd) &&
         forall j | 0 <= j < i :: Lookup(checkpoint, StateDictKeys[j]).None?) ||
      ((forall i | 0 <= i < |StateDictKeys| :: Lookup(checkpoint, StateDictKeys[i]).None?) &&
       sd == Nested(checkpoint))
  {
    var sd := SelectStateDict(checkpoint);
    if Lookup(checkpoint, StateDictKeys[0]).Some? {
      assert Lookup(checkpoint, StateDictKeys[0]) == Some(sd);
    } else if Lookup(checkpoint, StateDictKeys[1]).Some? {
      assert Lookup(checkpoint, StateDictKeys[1]) == Some(sd);
    } else if Lookup(checkpoint, StateDictKeys[2]).Some? {
      assert Lookup(checkpoint, StateDictKeys[2]) == Some(sd);
    }
  }

  /** Every item of the state dict with its key converted, in order. */
  function Renamed<V>(items: Dict<string, V>): (pairs: seq<(string, V)>)
    ensures |pairs| == |items|
  {
    seq(|items|, i requires 0 <= i < |items| => (ConvertKey(items[i].0), items[i].1))
  }

  /** `converted_state_dict` after the conversion loop. */
  function ConvertAll<V>(items: Dict<string, V>): Dict<string, V> {
    AssignAll(Renamed(items))
  }

  /** The conversion loop of `_load_checkpoint`. */
  method ConvertStateDict<V>(stateDict: Dict<string, V>) returns (converted: Dict<string, V>)
    ensures converted == ConvertAll(stateDict)
  {
    ghost var pairs := Renamed(stateDict);
    converted := [];
    var n := 0;
    while n < |stateDict|
      invariant 0 <= n <= |stateDict|
      invariant converted == AssignAll(pairs[..n])
    {
      var (k, v) := stateDict[n];
      var newK := RewriteKey(k);
      assert pairs[n].0 == newK && pairs[n].1 == v;
      AssignAllStep(pairs, n);
      converted := Assign(converted, newK, v);
      n := n + 1;
    }
    assert pairs[..n] == pairs;
  }

  /** The body of the conversion loop up to the assignment: the key
      rewritten step by step. */
  method RewriteKey(k: string) returns (newK: string)
    ensures newK == ConvertKey(k)
  {
    newK := k;
    if GeneratorPrefix <= newK {
      newK := ReplaceAll(newK, GeneratorPrefix, "");
    }
    assert newK == StripGenerator(k);
    if Contains(newK, ".body.") {
      newK := ReplaceAll(newK, ".body.", ".rrdb_blocks.");
    } else if "body." <= newK {
      newK := ReplaceAll(newK, "body.", "generator.rrdb_blocks.");
    }
    assert newK == RenameBody(StripGenerator(k));
    newK := AddMarkedPrefixes(newK);
  }

  /** The five marker checks of the conversion loop, one after another. */
  method AddMarkedPrefixes(k: string) returns (newK: string)
    ensures newK == AddPrefixes(k, PrefixMarkers)
  {
    newK := k;
    var m := 0;
    while m < |PrefixMarkers|
      invariant 0 <= m <= |PrefixMarkers|
      invariant AddPrefixes(newK, PrefixMarkers[m..]) == AddPrefixes(k, PrefixMarkers)
    {
      if Contains(newK, PrefixMarkers[m]) && !(GeneratorPrefix <= newK) {
        newK := GeneratorPrefix + newK;
      }
      assert PrefixMarkers[m..][1..] == PrefixMarkers[m + 1..];
      m := m + 1;
    }
  }

  /** Every converted key holds the value of the last source item that
      converts to it; a key no source item converts to is absent; and the
      converted keys are distinct. */
  lemma ConvertAllLastWins<V>(items: Dict<string, V>, ck: string)
    ensures DistinctKeys(ConvertAll(items))
    ensures var j := LastKey(Renamed(items), ck);
      Lookup(ConvertAll(items), ck) == if j < 0 then None else Some(items[j].1)
  {
    AssignAllLastWins(Renamed(items), ck);
  }

  /** Every source item's value is kept when no later item converts to the
      same key. */
  lemma ConvertKeepsLast<V>(items: Dict<string, V>, j: nat)
    requires j < |items|
    requires forall j' | j < j' < |items| :: ConvertKey(items[j'].0) != ConvertKey(items[j].0)
    ensures Lookup(ConvertAll(items), ConvertKey(items[j].0)) == Some(items[j].1)
  {
    var pairs := Renamed(items);
    var ck := ConvertKey(items[j].0);
    AssignAllLastWins(pairs, ck);
    assert pairs[j].0 == ck;
    assert LastKey(pairs, ck) == j;
  }

  /** The converted state dict of a loaded checkpoint, or `None` when the
      selected value is not a dict (its `items()` fails, the error is
      caught, and the model keeps its initial weights). */
  function LoadedStateDict<T>(checkpoint: Dict<string, Value<T>>): (r: Option<Dict<string, Value<T>>>)
    ensures r.Some? <==> SelectStateDict(checkpoint).Nested?
    ensures r.Some? ==> r.value == ConvertAll(SelectStateDict(checkpoint).items)
  {
    match SelectStateDict(checkpoint)
    case Nested(items) => Some(ConvertAll(items))
    case Tensor(_) => None
  }
}
