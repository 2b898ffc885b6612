/**
 The read-through translation cache (src/modules/i18n/i18n.service.ts). Cached or not, a text is
 translated as the provider alone would have translated it, and no failure makes the cache lie.
 */
module TranslationCache {
  import opened Common

  type Language = nat

  datatype Key = Key(source: Language, target: Language, hash: nat)

  datatype Row = Row(sourceText: string, translatedText: string, provider: string)

  datatype Translation = Translation(sourceText: string, translatedText: string, cached: bool, provider: string)

  /** What the service depends on: a text hash and a deterministic provider. */
  datatype Services = Services(hash: string -> nat, translate: (Language, Language, string) -> string,
                               providerName: string)

  ghost predicate Injective(hash: string -> nat) {
    forall s, t :: hash(s) == hash(t) ==> s == t
  }

  /** The translation without any cache: an empty answer of the provider leaves the text as it is. */
  function Uncached(services: Services, source: Language, target: Language, text: string): string {
    var translated := services.translate(source, target, text);
    if translated == "" then text else translated
  }

  /** The white space that `String.prototype.trim` removes. */
  predicate IsSpace(c: char) {
    var n := c as int;
    9 <= n <= 13 || n == 32 || n == 0xa0 || n == 0x1680 || 0x2000 <= n <= 0x200a
    || n == 0x2028 || n == 0x2029 || n == 0x202f || n == 0x205f || n == 0x3000 || n == 0xfeff
  }

  function TrimStart(s: string): string {
    if s != "" && IsSpace(s[0]) then TrimStart(s[1..]) else s
  }

  function TrimEnd(s: string): string {
    if s != "" && IsSpace(s[|s| - 1]) then TrimEnd(s[..|s| - 1]) else s
  }

  function Normalize(s: string): string { TrimEnd(TrimStart(s)) }

  /** The texts to translate: trimmed, the empty ones dropped, order and duplicates kept. */
  function Requested(texts: seq<string>): seq<string> {
    if texts == [] then []
    else (if Normalize(texts[0]) == "" then [] else [Normalize(texts[0])]) + Requested(texts[1..])
  }

  /** The part of `s` from `i` to `j`, outside of which there is only white space. */
  ghost predicate IsTrimmed(s: string, i: nat, j: nat, r: string) {
    && i <= j <= |s| && r == s[i..j]
    && (forall k :: 0 <= k < i || j <= k < |s| ==> IsSpace(s[k]))
    && (r != "" ==> !IsSpace(r[0]) && !IsSpace(r[|r| - 1]))
  }

  lemma {:induction false} TrimStartIs(s: string) returns (i: nat)
    ensures i <= |s| && TrimStart(s) == s[i..] && forall k :: 0 <= k < i ==> IsSpace(s[k])
    ensures TrimStart(s) != "" ==> !IsSpace(TrimStart(s)[0])
  {
    i := 0;
    if s != "" && IsSpace(s[0]) {
      var rest := TrimStartIs(s[1..]);
      i := rest + 1;
      assert forall k :: 0 < k < i ==> s[k] == s[1..][k - 1];
    }
  }

  lemma {:induction false} TrimEndIs(s: string) returns (j: nat)
    ensures j <= |s| && TrimEnd(s) == s[..j] && forall k :: j <= k < |s| ==> IsSpace(s[k])
    ensures TrimEnd(s) != "" ==> !IsSpace(TrimEnd(s)[j - 1])
  {
    j := |s|;
    if s != "" && IsSpace(s[|s| - 1]) {
      j := TrimEndIs(s[..|s| - 1]);
    }
  }

  lemma NormalizeTrims(s: string) returns (i: nat, j: nat)
    ensures IsTrimmed(s, i, j, Normalize(s))
  {
    i := TrimStartIs(s);
    var end := TrimEndIs(s[i..]);
    j := i + end;
    assert Normalize(s) == s[i..][..end] == s[i..j];
    assert forall k :: j <= k < |s| ==> s[k] == s[i..][k - i];
    assert end > 0 ==> s[i..][0] == Normalize(s)[0];
  }

  /** The requested texts are those of the call that are not all white space, in order, each trimmed. */
  ghost predicate ComesFrom(texts: seq<string>, requested: seq<string>, from: seq<nat>) {
    && |from| == |requested|
    && (forall k :: 0 <= k < |from| ==> from[k] < |texts| && requested[k] == Normalize(texts[from[k]]) != "")
    && (forall k, m :: 0 <= k < m < |from| ==> from[k] < from[m])
    && (forall i: nat :: i < |texts| && i !in from ==> forall k :: 0 <= k < |texts[i]| ==> IsSpace(texts[i][k]))
  }

  function Moved(from: seq<nat>): seq<nat> {
    seq(|from|, k requires 0 <= k < |from| => from[k] + 1)
  }

  lemma MovedHolds(from: seq<nat>, i: nat)
    requires i > 0 && i - 1 in from
    ensures i in Moved(from)
  {
    var k :| 0 <= k < |from| && from[k] == i - 1;
    assert Moved(from)[k] == i;
  }

  lemma DroppedFirst(texts: seq<string>, requested: seq<string>, from: seq<nat>)
    requires texts != [] && ComesFrom(texts[1..], requested, from) && Normalize(texts[0]) == ""
    ensures ComesFrom(texts, requested, Moved(from))
  {
    var i, j := NormalizeTrims(texts[0]);
    OthersDropped(texts, from);
  }

  lemma OthersDropped(texts: seq<string>, from: seq<nat>)
    requires texts != []
    requires forall i: nat :: i < |texts[1..]| && i !in from ==>
               forall k :: 0 <= k < |texts[1..][i]| ==> IsSpace(texts[1..][i][k])
    ensures forall i: nat :: 0 < i < |texts| && i !in Moved(from) ==>
              forall k :: 0 <= k < |texts[i]| ==> IsSpace(texts[i][k])
  {
    forall i: nat | 0 < i < |texts| && i !in Moved(from)
      ensures forall k :: 0 <= k < |texts[i]| ==> IsSpace(texts[i][k])
    {
      if i - 1 in from {
        MovedHolds(from, i);
      }
      assert texts[1..][i - 1] == texts[i];
    }
  }

  lemma KeptFirst(texts: seq<string>, requested: seq<string>, from: seq<nat>)
    requires texts != [] && ComesFrom(texts[1..], requested, from) && Normalize(texts[0]) != ""
    ensures ComesFrom(texts, [Normalize(texts[0])] + requested, [0] + Moved(from))
  {
    OthersDropped(texts, from);
    KeptIndexes(texts, requested, from);
    forall i: nat | i < |texts| && i !in [0] + Moved(from)
      ensures 0 < i && i !in Moved(from)
    {
      assert ([0] + Moved(from))[0] == 0;
    }
  }

  lemma KeptIndexes(texts: seq<string>, requested: seq<string>, from: seq<nat>)
    requires texts != [] && ComesFrom(texts[1..], requested, from) && Normalize(texts[0]) != ""
    ensures var all, kept := [Normalize(texts[0])] + requested, [0] + Moved(from);
            && |kept| == |all|
            && (forall k :: 0 <= k < |kept| ==> kept[k] < |texts| && all[k] == Normalize(texts[kept[k]]) != "")
            && (forall k, m :: 0 <= k < m < |kept| ==> kept[k] < kept[m])
  {
    var all, kept := [Normalize(texts[0])] + requested, [0] + Moved(from);
    forall k | 0 <= k < |kept|
      ensures kept[k] < |texts| && all[k] == Normalize(texts[kept[k]]) != ""
      ensures k > 0 ==> kept[k] == from[k - 1] + 1
    {
      if k > 0 {
        assert texts[1..][from[k - 1]] == texts[kept[k]] && all[k] == requested[k - 1];
      }
    }
  }

  lemma {:induction false} RequestedComesFrom(texts: seq<string>) returns (from: seq<nat>)
    ensures ComesFrom(texts, Requested(texts), from)
  {
    from := [];
    if texts != [] {
      var rest := RequestedComesFrom(texts[1..]);
      if Normalize(texts[0]) == "" {
        DroppedFirst(texts, Requested(texts[1..]), rest);
        from := Moved(rest);
      } else {
        KeptFirst(texts, Requested(texts[1..]), rest);
        from := [0] + Moved(rest);
      }
    }
  }

  ghost predicate CoherentRow(services: Services, key: Key, row: Row) {
    && services.hash(row.sourceText) == key.hash
    && row.translatedText == Uncached(services, key.source, key.target, row.sourceText)
  }

  /** Every row holds what the provider says of its text, under the hash of that text. */
  ghost predicate Coherent(services: Services, rows: map<Key, Row>) {
    forall key :: key in rows ==> CoherentRow(services, key, rows[key])
  }

  // ----- What a call answers, and what it leaves in the cache -----

  /** The hashes that the lookup finds; none when it fails. */
  function Visible(rows: map<Key, Row>, source: Language, target: Language, lookupFails: bool): set<nat> {
    if lookupFails then {} else set key | key in rows && key.source == source && key.target == target :: key.hash
  }

  /** The texts the lookup did not find, in order, duplicates included. */
  function Missing(services: Services, texts: seq<string>, known: set<nat>): seq<string> {
    if texts == [] then []
    else (if services.hash(texts[0]) in known then [] else [texts[0]]) + Missing(services, texts[1..], known)
  }

  function FreshRow(services: Services, source: Language, target: Language, text: string, available: bool): Row {
    if available then Row(text, Uncached(services, source, target, text), services.providerName)
    else Row(text, text, "fallback")
  }

  function AnswerTo(services: Services, rows: map<Key, Row>, visible: set<nat>, source: Language, target: Language,
                    available: bool, text: string): Translation
  {
    var h := services.hash(text);
    var row := if h in visible && Key(source, target, h) in rows then rows[Key(source, target, h)]
               else FreshRow(services, source, target, text, available);
    Translation(text, row.translatedText,
                h in visible || row.provider == "identity" || row.provider == "fallback",
                row.provider)
  }

  /** An existing row keeps its source text. */
  function UpsertRow(rows: map<Key, Row>, key: Key, row: Row): map<Key, Row> {
    rows[key := if key in rows then row.(sourceText := rows[key].sourceText) else row]
  }

  /** The table after the first `n` writes, of which those that `persisted` names succeeded. */
  function Stored(services: Services, rows: map<Key, Row>, source: Language, target: Language, texts: seq<string>,
                  persisted: nat -> bool, n: nat): map<Key, Row>
    requires n <= |texts|
  {
    if n == 0 then rows
    else
      var before := Stored(services, rows, source, target, texts, persisted, n - 1);
      if !persisted(n - 1) then before
      else UpsertRow(before, Key(source, target, services.hash(texts[n - 1])),
                     FreshRow(services, source, target, texts[n - 1], true))
  }

  lemma {:induction false} StoredIsCoherent(services: Services, rows: map<Key, Row>, source: Language, target: Language,
                                            texts: seq<string>, persisted: nat -> bool, n: nat)
    requires Injective(services.hash) && Coherent(services, rows) && n <= |texts|
    ensures Coherent(services, Stored(services, rows, source, target, texts, persisted, n))
  {
    if n > 0 {
      StoredIsCoherent(services, rows, source, target, texts, persisted, n - 1);
      var before := Stored(services, rows, source, target, texts, persisted, n - 1);
      var key := Key(source, target, services.hash(texts[n - 1]));
      if key in before {
        assert CoherentRow(services, key, before[key]);
        assert before[key].sourceText == texts[n - 1];
      }
    }
  }

  /**
   With a coherent cache, an answer is the provider's own; when the provider is down, it may also be the
   text itself.
   */
  lemma AnswerIsUncached(services: Services, rows: map<Key, Row>, source: Language, target: Language, lookupFails: bool,
                         available: bool, text: string)
    requires Injective(services.hash) && Coherent(services, rows)
    ensures var answer :=
              AnswerTo(services, rows, Visible(rows, source, target, lookupFails), source, target, available, text);
            && answer.sourceText == text
            && (answer.translatedText == Uncached(services, source, target, text)
                || (!available && answer.translatedText == text && answer.provider == "fallback"))
  {
    var key := Key(source, target, services.hash(text));
    if key in rows {
      assert CoherentRow(services, key, rows[key]);
    }
  }

  lemma {:induction false} MissingHolds(services: Services, texts: seq<string>, known: set<nat>, text: string)
    ensures text in Missing(services, texts, known) <==> text in texts && services.hash(text) !in known
  {
    if texts != [] {
      MissingHolds(services, texts[1..], known, text);
      assert texts == [texts[0]] + texts[1..];
    }
  }

  lemma {:induction false} MissingAgrees(services: Services, texts: seq<string>, a: set<nat>, b: set<nat>)
    requires forall i :: 0 <= i < |texts| ==> (services.hash(texts[i]) in a <==> services.hash(texts[i]) in b)
    ensures Missing(services, texts, a) == Missing(services, texts, b)
  {
    if texts != [] {
      assert forall i :: 0 <= i < |texts[1..]| ==> texts[1..][i] == texts[i + 1];
      MissingAgrees(services, texts[1..], a, b);
    }
  }

  // ----- Calls -----

  /** One call, with everything that may fail in it. */
  datatype Call = Call(source: Language, target: Language, texts: seq<string>, lookupFails: bool, providerFails: bool,
                       persisted: nat -> bool)

  function MissingOf(services: Services, rows: map<Key, Row>, call: Call): seq<string> {
    Missing(services, Requested(call.texts), Visible(rows, call.source, call.target, call.lookupFails))
  }

  /** The provider is only asked, and so only found out, when a text is missing. */
  predicate Available(services: Services, rows: map<Key, Row>, call: Call) {
    call.source == call.target || MissingOf(services, rows, call) == [] || !call.providerFails
  }

  function Answers(services: Services, rows: map<Key, Row>, call: Call): seq<Translation> {
    var requested := Requested(call.texts);
    if call.source == call.target then
      seq(|requested|, i requires 0 <= i < |requested| => Translation(requested[i], requested[i], true, "identity"))
    else
      seq(|requested|, i requires 0 <= i < |requested| =>
        AnswerTo(services, rows, Visible(rows, call.source, call.target, call.lookupFails), call.source, call.target,
                 Available(services, rows, call), requested[i]))
  }

  function After(services: Services, rows: map<Key, Row>, call: Call): map<Key, Row> {
    var missing := MissingOf(services, rows, call);
    if call.source == call.target || !Available(services, rows, call) then rows
    else Stored(services, rows, call.source, call.target, missing, call.persisted, |missing|)
  }

  /** The text is in the cache, and the lookup sees it. */
  predicate Found(services: Services, rows: map<Key, Row>, call: Call, text: string) {
    !call.lookupFails && Key(call.source, call.target, services.hash(text)) in rows
  }

  /** What a text is answered: itself, the cached row, the provider's translation or, failing that, itself. */
  ghost predicate IsAnswer(services: Services, rows: map<Key, Row>, call: Call, available: bool, text: string,
                           answer: Translation)
  {
    if call.source == call.target then answer == Translation(text, text, true, "identity")
    else if Found(services, rows, call, text) then
      var row := rows[Key(call.source, call.target, services.hash(text))];
      answer == Translation(text, row.translatedText, true, row.provider)
    else if available then
      var translated := services.translate(call.source, call.target, text);
      && answer.sourceText == text && answer.provider == services.providerName
      && answer.translatedText == (if translated == "" then text else translated)
      && (answer.cached <==> services.providerName in {"identity", "fallback"})
    else answer == Translation(text, text, true, "fallback")
  }

  lemma AnswersExactly(services: Services, rows: map<Key, Row>, call: Call)
    ensures var answers, requested := Answers(services, rows, call), Requested(call.texts);
            && |answers| == |requested|
            && forall i :: 0 <= i < |answers| ==>
                 IsAnswer(services, rows, call, Available(services, rows, call), requested[i], answers[i])
    ensures Available(services, rows, call)
        <==> call.source == call.target || !call.providerFails
             || forall text :: text in Requested(call.texts) ==> Found(services, rows, call, text)
  {
    var requested := Requested(call.texts);
    var known := Visible(rows, call.source, call.target, call.lookupFails);
    forall text
      ensures services.hash(text) in known <==> Found(services, rows, call, text)
      ensures text in MissingOf(services, rows, call)
         <==> text in requested && !Found(services, rows, call, text)
    {
      VisibleHolds(rows, call.source, call.target, services.hash(text));
      MissingHolds(services, requested, known, text);
    }
    if MissingOf(services, rows, call) != [] {
      assert MissingOf(services, rows, call)[0] in MissingOf(services, rows, call);
    }
  }

  /** What a write may leave in a row: the provider's translation, and the text of the row before, if any. */
  ghost predicate IsWritten(services: Services, before: map<Key, Row>, key: Key, row: Row, text: string) {
    && key.hash == services.hash(text) && row.provider == services.providerName
    && row.translatedText
         == (var translated := services.translate(key.source, key.target, text);
             if translated == "" then text else translated)
    && row.sourceText == if key in before then before[key].sourceText else text
  }

  /** After a call: only rows of missing texts are new or other than before, and all of them if all writes succeed. */
  ghost predicate IsAfter(services: Services, before: map<Key, Row>, call: Call, after: map<Key, Row>) {
    && before.Keys <= after.Keys
    && (forall key :: key in after && (key !in before || after[key] != before[key]) ==>
          key.source == call.source && key.target == call.target && call.source != call.target
          && !call.providerFails
          && exists text :: text in Requested(call.texts) && !Found(services, before, call, text)
                            && IsWritten(services, before, key, after[key], text))
    && (call.source != call.target && !call.providerFails && (forall i: nat :: call.persisted(i)) ==>
          forall text :: text in Requested(call.texts) ==> Key(call.source, call.target, services.hash(text)) in after)
  }

  lemma AfterExactly(services: Services, rows: map<Key, Row>, call: Call)
    requires Injective(services.hash)
    ensures IsAfter(services, rows, call, After(services, rows, call))
  {
    AnswersExactly(services, rows, call);
    var missing := MissingOf(services, rows, call);
    if call.source != call.target && !call.providerFails {
      MissingAre(services, rows, call);
      StoredExactly(services, rows, call, missing, |missing|);
      forall text | text in Requested(call.texts) && !Found(services, rows, call, text)
        ensures exists j :: 0 <= j < |missing| && missing[j] == text
      {
        assert text in missing;
      }
    } else if Available(services, rows, call) && call.source != call.target {
      MissingAre(services, rows, call);
      assert missing == [];
    }
  }

  lemma MissingAre(services: Services, rows: map<Key, Row>, call: Call)
    ensures forall text :: text in MissingOf(services, rows, call)
              <==> text in Requested(call.texts) && !Found(services, rows, call, text)
    ensures MissingOf(services, rows, call) != [] ==>
              exists text :: text in Requested(call.texts) && !Found(services, rows, call, text)
  {
    var known := Visible(rows, call.source, call.target, call.lookupFails);
    forall text
      ensures text in MissingOf(services, rows, call)
         <==> text in Requested(call.texts) && !Found(services, rows, call, text)
    {
      VisibleHolds(rows, call.source, call.target, services.hash(text));
      MissingHolds(services, Requested(call.texts), known, text);
    }
    if MissingOf(services, rows, call) != [] {
      assert MissingOf(services, rows, call)[0] in MissingOf(services, rows, call);
    }
  }

  /** The table after writes of some of these texts, for this language pair. */
  ghost predicate AreWritten(services: Services, rows: map<Key, Row>, call: Call, texts: seq<string>,
                             after: map<Key, Row>)
  {
    && rows.Keys <= after.Keys
    && (forall key :: key in after && (key !in rows || after[key] != rows[key]) ==>
          key.source == call.source && key.target == call.target
          && exists text :: text in texts && IsWritten(services, rows, key, after[key], text))
  }

  lemma OneMoreWritten(services: Services, rows: map<Key, Row>, call: Call, texts: seq<string>, before: map<Key, Row>,
                       text: string)
    requires Injective(services.hash) && AreWritten(services, rows, call, texts, before) && text in texts
    ensures var key := Key(call.source, call.target, services.hash(text));
            AreWritten(services, rows, call, texts,
                       UpsertRow(before, key, FreshRow(services, call.source, call.target, text, true)))
  {
    var key := Key(call.source, call.target, services.hash(text));
    if key in before && key !in rows {
      var other :| other in texts && IsWritten(services, rows, key, before[key], other);
      assert other == text;
    }
    assert IsWritten(services, rows, key,
                     UpsertRow(before, key, FreshRow(services, call.source, call.target, text, true))[key], text);
  }

  lemma {:induction false} StoredExactly(services: Services, rows: map<Key, Row>, call: Call, texts: seq<string>,
                                         n: nat)
    requires Injective(services.hash) && n <= |texts|
    ensures var after := Stored(services, rows, call.source, call.target, texts, call.persisted, n);
            && AreWritten(services, rows, call, texts, after)
            && (forall i :: 0 <= i < n && call.persisted(i) ==>
                  Key(call.source, call.target, services.hash(texts[i])) in after)
  {
    if n > 0 {
      StoredExactly(services, rows, call, texts, n - 1);
      OneMoreWritten(services, rows, call, texts,
                     Stored(services, rows, call.source, call.target, texts, call.persisted, n - 1), texts[n - 1]);
    }
  }

  // ----- Runs -----

  function Run(services: Services, initial: map<Key, Row>, calls: seq<Call>): map<Key, Row>
    decreases |calls|
  {
    if calls == [] then initial else After(services, Run(services, initial, calls[..|calls| - 1]), calls[|calls| - 1])
  }

  lemma {:induction false} RunsAreCoherent(services: Services, initial: map<Key, Row>, calls: seq<Call>)
    requires Injective(services.hash) && Coherent(services, initial)
    ensures Coherent(services, Run(services, initial, calls))
    decreases |calls|
  {
    if calls != [] {
      var rows, call := Run(services, initial, calls[..|calls| - 1]), calls[|calls| - 1];
      RunsAreCoherent(services, initial, calls[..|calls| - 1]);
      var missing := MissingOf(services, rows, call);
      StoredIsCoherent(services, rows, call.source, call.target, missing, call.persisted, |missing|);
    }
  }

  /**
   After any run, whatever failed in it, the cache is invisible in the texts: a call whose provider works
   answers what the provider alone would, for every requested text, in order.
   */
  lemma CacheIsInvisible(services: Services, initial: map<Key, Row>, calls: seq<Call>, call: Call)
    requires Injective(services.hash) && Coherent(services, initial) && call.source != call.target
               && !call.providerFails
    ensures var answers, requested := Answers(services, Run(services, initial, calls), call), Requested(call.texts);
            |answers| == |requested|
            && forall i :: 0 <= i < |answers| ==>
                 var translated := services.translate(call.source, call.target, requested[i]);
                 answers[i].sourceText == requested[i]
                 && answers[i].translatedText == if translated == "" then requested[i] else translated
  {
    RunsAreCoherent(services, initial, calls);
    var rows, requested := Run(services, initial, calls), Requested(call.texts);
    forall i | 0 <= i < |requested|
      ensures Answers(services, rows, call)[i].sourceText == requested[i]
      ensures Answers(services, rows, call)[i].translatedText
                == Uncached(services, call.source, call.target, requested[i])
    {
      AnswerIsUncached(services, rows, call.source, call.target, call.lookupFails, true, requested[i]);
    }
  }

  lemma {:induction false} RowsStay(services: Services, initial: map<Key, Row>, calls: seq<Call>)
    requires Injective(services.hash)
    ensures initial.Keys <= Run(services, initial, calls).Keys
    decreases |calls|
  {
    if calls != [] {
      RowsStay(services, initial, calls[..|calls| - 1]);
      AfterExactly(services, Run(services, initial, calls[..|calls| - 1]), calls[|calls| - 1]);
    }
  }

  /**
   What a call has translated and stored, the provider is never asked for again: after any further calls, the
   same texts are answered from the cache, with the provider's translation, even when the provider is down.
   */
  lemma StoredForGood(services: Services, initial: map<Key, Row>, first: Call, later: seq<Call>, again: Call)
    requires Injective(services.hash) && Coherent(services, initial)
    requires first.source != first.target && !first.providerFails && forall i: nat :: first.persisted(i)
    requires again.source == first.source && again.target == first.target && again.texts == first.texts
    requires !again.lookupFails
    ensures var rows := Run(services, After(services, initial, first), later);
            var answers, requested := Answers(services, rows, again), Requested(again.texts);
            && Available(services, rows, again) && After(services, rows, again) == rows
            && |answers| == |requested|
            && forall i :: 0 <= i < |answers| ==> FoundAnswer(services, rows, again, requested[i], answers[i])
  {
    var stored := After(services, initial, first);
    var rows, requested := Run(services, stored, later), Requested(again.texts);
    StaysCoherent(services, initial, first, later);
    AllFound(services, initial, first, later, again);
    AnswersExactly(services, rows, again);
    NoneMissing(services, rows, again);
    forall i | 0 <= i < |requested|
      ensures FoundAnswer(services, rows, again, requested[i], Answers(services, rows, again)[i])
    {
      assert Found(services, rows, again, requested[i]);
      FoundIsTranslation(services, rows, again, requested[i], Answers(services, rows, again)[i]);
    }
  }

  lemma NoneMissing(services: Services, rows: map<Key, Row>, call: Call)
    requires forall text :: text in Requested(call.texts) ==> Found(services, rows, call, text)
    ensures MissingOf(services, rows, call) == []
  {
    MissingAre(services, rows, call);
  }

  ghost predicate FoundAnswer(services: Services, rows: map<Key, Row>, call: Call, text: string, answer: Translation) {
    var translated := services.translate(call.source, call.target, text);
    answer.cached && answer.sourceText == text && answer.translatedText == if translated == "" then text else translated
  }

  lemma FoundIsTranslation(services: Services, rows: map<Key, Row>, call: Call, text: string, answer: Translation)
    requires Injective(services.hash) && Coherent(services, rows) && call.source != call.target
    requires Found(services, rows, call, text)
    requires IsAnswer(services, rows, call, Available(services, rows, call), text, answer)
    ensures FoundAnswer(services, rows, call, text, answer)
  {
    var key := Key(call.source, call.target, services.hash(text));
    assert CoherentRow(services, key, rows[key]);
  }

  lemma StaysCoherent(services: Services, initial: map<Key, Row>, first: Call, later: seq<Call>)
    requires Injective(services.hash) && Coherent(services, initial)
    ensures Coherent(services, Run(services, After(services, initial, first), later))
  {
    RunsAreCoherent(services, initial, [first]);
    assert [first][..0] == [] && Run(services, initial, [first]) == After(services, initial, first);
    RunsAreCoherent(services, After(services, initial, first), later);
  }

  lemma AllFound(services: Services, initial: map<Key, Row>, first: Call, later: seq<Call>, again: Call)
    requires Injective(services.hash)
    requires first.source != first.target && !first.providerFails && forall i: nat :: first.persisted(i)
    requires again.source == first.source && again.target == first.target && !again.lookupFails
    ensures forall text :: text in Requested(first.texts) ==>
              Found(services, Run(services, After(services, initial, first), later), again, text)
  {
    AfterExactly(services, initial, first);
    RowsStay(services, After(services, initial, first), later);
  }

  // ----- The service -----

  /** The cache table. */
  class Store {
    var rows: map<Key, Row>

    constructor ()
      ensures rows == map[]
    {
      rows := map[];
    }

    method Upsert(key: Key, row: Row)
      modifies this
      ensures rows == UpsertRow(old(rows), key, row)
    {
      if key in rows {
        rows := rows[key := rows[key].(translatedText := row.translatedText, provider := row.provider)];
      } else {
        rows := rows[key := row];
      }
    }
  }

  /** Reads the rows of the requested texts into a map by hash. */
  method FindMany(store: Store, services: Services, source: Language, target: Language, texts: seq<string>)
    returns (byHash: map<nat, Row>)
    ensures forall h :: h in byHash ==>
              Key(source, target, h) in store.rows && byHash[h] == store.rows[Key(source, target, h)]
    ensures forall i :: 0 <= i < |texts| ==>
              (services.hash(texts[i]) in byHash <==>
               services.hash(texts[i]) in Visible(store.rows, source, target, false))
  {
    byHash := map[];
    for i := 0 to |texts|
      invariant forall h :: h in byHash ==>
                  Key(source, target, h) in store.rows && byHash[h] == store.rows[Key(source, target, h)]
      invariant forall j :: 0 <= j < i && Key(source, target, services.hash(texts[j])) in store.rows ==>
                  services.hash(texts[j]) in byHash
    {
      var key := Key(source, target, services.hash(texts[i]));
      if key in store.rows {
        byHash := byHash[key.hash := store.rows[key]];
      }
    }
    forall i | 0 <= i < |texts|
      ensures services.hash(texts[i]) in byHash <==>
                services.hash(texts[i]) in Visible(store.rows, source, target, false)
    {
      VisibleHolds(store.rows, source, target, services.hash(texts[i]));
    }
  }

  lemma VisibleHolds(rows: map<Key, Row>, source: Language, target: Language, h: nat)
    ensures h in Visible(rows, source, target, false) <==> Key(source, target, h) in rows
  {
    if Key(source, target, h) in rows {
      assert Key(source, target, h).hash in Visible(rows, source, target, false);
    }
  }

  /** Writes the rows of the translated texts; any of the writes may fail, as `persisted` says. */
  method UpsertMany(store: Store, services: Services, source: Language, target: Language, texts: seq<string>,
                    persisted: nat -> bool)
    modifies store
    ensures store.rows == Stored(services, old(store.rows), source, target, texts, persisted, |texts|)
  {
    for i := 0 to |texts|
      invariant store.rows == Stored(services, old(store.rows), source, target, texts, persisted, i)
    {
      if persisted(i) {
        store.Upsert(Key(source, target, services.hash(texts[i])), FreshRow(services, source, target, texts[i], true));
      }
    }
  }

  /** Fills the map for the missing texts, from the provider or, when it failed, with the texts themselves. */
  method FillMissing(services: Services, source: Language, target: Language, missing: seq<string>,
                     byHash: map<nat, Row>, available: bool)
    returns (filled: map<nat, Row>)
    requires Injective(services.hash)
    ensures forall h :: h in byHash && (forall i :: 0 <= i < |missing| ==> services.hash(missing[i]) != h) ==>
              h in filled && filled[h] == byHash[h]
    ensures forall i :: 0 <= i < |missing| ==>
              services.hash(missing[i]) in filled
              && filled[services.hash(missing[i])] == FreshRow(services, source, target, missing[i], available)
  {
    filled := byHash;
    for i := 0 to |missing|
      invariant forall h :: h in byHash && (forall j :: 0 <= j < i ==> services.hash(missing[j]) != h) ==>
                  h in filled && filled[h] == byHash[h]
      invariant forall j :: 0 <= j < i ==>
                  services.hash(missing[j]) in filled
                  && filled[services.hash(missing[j])] == FreshRow(services, source, target, missing[j], available)
    {
      filled := filled[services.hash(missing[i]) := FreshRow(services, source, target, missing[i], available)];
    }
  }

  /** `translatePortalTexts`. The cache lookup, the provider and each cache write may fail. */
  method TranslatePortalTexts(store: Store, services: Services, call: Call)
    returns (translations: seq<Translation>, providerAvailable: bool)
    requires Injective(services.hash)
    modifies store
    ensures translations == Answers(services, old(store.rows), call)
    ensures providerAvailable == Available(services, old(store.rows), call)
    ensures store.rows == After(services, old(store.rows), call)
    ensures |translations| == |Requested(call.texts)|
    ensures forall i :: 0 <= i < |translations| ==>
              IsAnswer(services, old(store.rows), call, providerAvailable, Requested(call.texts)[i], translations[i])
    ensures providerAvailable
            <==> call.source == call.target || !call.providerFails
                 || forall text :: text in Requested(call.texts) ==> Found(services, old(store.rows), call, text)
    ensures IsAfter(services, old(store.rows), call, store.rows)
  {
    AnswersExactly(services, store.rows, call);
    AfterExactly(services, store.rows, call);
    var requested := Requested(call.texts);
    providerAvailable := true;
    if requested == [] || call.source == call.target {
      translations := seq(|requested|, i requires 0 <= i < |requested| =>
        Translation(requested[i], requested[i], true, "identity"));
      return;
    }
    var found: map<nat, Row> := map[];
    if !call.lookupFails {
      found := FindMany(store, services, call.source, call.target, requested);
    }
    ghost var visible := Visible(store.rows, call.source, call.target, call.lookupFails);
    var missing := Missing(services, requested, found.Keys);
    MissingAgrees(services, requested, found.Keys, visible);
    var byHash := found;
    if missing != [] {
      providerAvailable := !call.providerFails;
      byHash := FillMissing(services, call.source, call.target, missing, found, providerAvailable);
      if providerAvailable {
        UpsertMany(store, services, call.source, call.target, missing, call.persisted);
      }
    }
    forall i | 0 <= i < |requested|
      ensures services.hash(requested[i]) in byHash
      ensures byHash[services.hash(requested[i])]
           == if services.hash(requested[i]) in found then found[services.hash(requested[i])]
              else FreshRow(services, call.source, call.target, requested[i], providerAvailable)
    {
      Answered(services, call.source, call.target, requested, found, missing, byHash, providerAvailable, i);
    }
    translations := seq(|requested|, i requires 0 <= i < |requested| && services.hash(requested[i]) in byHash =>
      var row := byHash[services.hash(requested[i])];
      Translation(requested[i], row.translatedText,
                  services.hash(requested[i]) in found || row.provider == "identity" || row.provider == "fallback",
                  row.provider));
  }

  /** A requested text is answered from the cache or, when it was missing, from what filled the gap. */
  lemma Answered(services: Services, source: Language, target: Language, requested: seq<string>, found: map<nat, Row>,
                 missing: seq<string>, byHash: map<nat, Row>, available: bool, i: nat)
    requires Injective(services.hash) && i < |requested| && missing == Missing(services, requested, found.Keys)
    requires missing == [] ==> byHash == found
    requires forall h :: h in found && (forall j :: 0 <= j < |missing| ==> services.hash(missing[j]) != h) ==>
               h in byHash && byHash[h] == found[h]
    requires forall j :: 0 <= j < |missing| ==>
               services.hash(missing[j]) in byHash
               && byHash[services.hash(missing[j])] == FreshRow(services, source, target, missing[j], available)
    ensures services.hash(requested[i]) in byHash
    ensures byHash[services.hash(requested[i])]
         == if services.hash(requested[i]) in found then found[services.hash(requested[i])]
            else FreshRow(services, source, target, requested[i], available)
  {
    var text := requested[i];
    MissingHolds(services, requested, found.Keys, text);
    if services.hash(text) in found {
      forall j | 0 <= j < |missing|
        ensures services.hash(missing[j]) != services.hash(text)
      {
        MissingHolds(services, requested, found.Keys, missing[j]);
      }
    } else {
      var j :| 0 <= j < |missing| && missing[j] == text;
    }
  }
}
