// The bounded text a user turn carries along: inline attachment text and the
// knowledge-base text that fits behind it.
module ContextBudget {
  import opened Wrappers

  /* ---------- Inline truncation ---------- */

  const INJECT_MARKER :=
    "\n\n\U{2026}[inline preview truncated; the full file is referenced in the header above]\U{2026}\n\n"

  function Headroom(total: nat, used: nat): nat {
    if used <= total then total - used else 0
  }

  // The inline copy of `text` and whether it was cut; zero means unbounded.
  function Truncate(text: string, maxChars: nat, marker: string): (string, bool) {
    if maxChars == 0 || |text| <= maxChars then (text, false)
    else
      var budget := Headroom(maxChars, |marker|);
      if budget == 0 then (text[..maxChars], true)
      else
        var head := budget * 6 / 10;
        var tail := budget - head;
        var start := Headroom(|text|, tail);
        (text[..head] + marker + (if tail > 0 then text[start..] else ""), true)
  }

  function TruncateForInjection(text: string, maxChars: nat): (string, bool) {
    Truncate(text, maxChars, INJECT_MARKER)
  }

  // `copy` is a prefix and a suffix of `text`, leaving out what is between them,
  // with the marker in the gap; the prefix takes six tenths of the room.
  ghost predicate KeepsEnds(text: string, copy: string, marker: string, head: nat, tail: nat) {
    && head + tail < |text|
    && 10 * head <= 6 * (head + tail) < 10 * head + 10
    && copy == text[..head] + marker + text[|text| - tail..]
  }

  // A cut copy has exactly the allowed length and keeps both ends when the
  // marker fits, else only the beginning.  Cutting the copy again changes nothing.
  lemma TruncationExact(text: string, maxChars: nat, marker: string)
    ensures var (copy, cut) := Truncate(text, maxChars, marker);
            && (cut <==> 0 < maxChars < |text|)
            && (!cut ==> copy == text)
            && (cut ==> |copy| == maxChars)
            && (cut && maxChars <= |marker| ==> copy == text[..maxChars])
            && (cut && maxChars > |marker| ==>
                  exists head, tail :: KeepsEnds(text, copy, marker, head, tail))
            && Truncate(copy, maxChars, marker) == (copy, false)
  {
    if 0 < maxChars < |text| && |marker| < maxChars {
      var budget := maxChars - |marker|;
      var head := budget * 6 / 10;
      assert KeepsEnds(text, Truncate(text, maxChars, marker).0, marker, head, budget - head);
    }
  }

  // With the marker in use, of 81 characters: a limit beyond it keeps both ends
  // of the text, the first six tenths of the room and the last four, and every
  // other limit a bare beginning.
  lemma InjectionExact(text: string, maxChars: nat)
    ensures |INJECT_MARKER| == 81
    ensures var (copy, cut) := TruncateForInjection(text, maxChars);
            && (cut <==> 0 < maxChars < |text|)
            && (!cut ==> copy == text)
            && (cut ==> |copy| == maxChars)
            && (cut && maxChars <= 81 ==> copy == text[..maxChars])
            && (cut && maxChars > 81 ==>
                  var head := (maxChars - 81) * 6 / 10;
                  && copy[..head] == text[..head]
                  && copy[head..head + 81]
                     == "\n\n\U{2026}[inline preview truncated; the full file is referenced in the header above]"
                        + "\U{2026}\n\n"
                  && copy[head + 81..] == text[|text| - (maxChars - 81 - head)..])
            && TruncateForInjection(copy, maxChars) == (copy, false)
  {
    TruncationExact(text, maxChars, INJECT_MARKER);
  }

  /* ---------- Knowledge-base text ---------- */

  // A knowledge-base context: its text may be absent, its name empty.
  datatype KbContext = KbContext(restricted: bool, text: Option<string>, name: string, knowledgeId: string)

  const TRUNCATED_NOTE := "\n(truncated...)\n\n"

  predicate Contributes(context: KbContext) {
    !context.restricted && context.text.Some? && context.text.value != ""
  }

  function KbBlock(context: KbContext): string
    requires Contributes(context)
  {
    "[Knowledge Base: " + (if context.name == "" then "Knowledge Base" else context.name)
    + " (ID: " + context.knowledgeId + ")]\n" + context.text.value + "\n\n"
  }

  // The blocks of the contributing contexts, in order.
  function KbBlocks(contexts: seq<KbContext>): seq<string> {
    if contexts == [] then []
    else (if Contributes(contexts[0]) then [KbBlock(contexts[0])] else []) + KbBlocks(contexts[1..])
  }

  // The text of one knowledge base, under a name of its own or the general one.
  ghost predicate BlockOf(context: KbContext, block: string) {
    && context.text.Some? && context.text.value != "" && !context.restricted
    && exists name ::
         && name == (if context.name == "" then "Knowledge Base" else context.name)
         && block == "[Knowledge Base: " + name + " (ID: " + context.knowledgeId + ")]\n" + context.text.value + "\n\n"
  }

  // The blocks are those of the unrestricted contexts with text, one each, in
  // order.
  lemma {:induction false} BlocksLaw(contexts: seq<KbContext>) returns (places: seq<nat>)
    ensures forall a, b :: 0 <= a < b < |places| ==> places[a] < places[b]
    ensures forall i: nat :: i in places <==>
              i < |contexts| && !contexts[i].restricted && contexts[i].text.Some? && contexts[i].text.value != ""
    ensures |KbBlocks(contexts)| == |places|
    ensures forall k :: 0 <= k < |places| ==>
              places[k] < |contexts| && BlockOf(contexts[places[k]], KbBlocks(contexts)[k])
  {
    hide BlockOf, KbBlock;
    places := [];
    if contexts != [] {
      var n := |contexts| - 1;
      places := BlocksLaw(contexts[..n]);
      KbBlocksLast(contexts);
      hide KbBlocks;
      forall a | 0 <= a < |places|
        ensures places[a] < n
      {
        assert places[a] in places;
      }
      if Contributes(contexts[n]) {
        BlockText(contexts[n]);
        PlacesStep(places, n);
        places := places + [n];
      }
    }
  }

  lemma PlacesStep(places: seq<nat>, n: nat)
    requires forall a, b :: 0 <= a < b < |places| ==> places[a] < places[b]
    requires forall a :: 0 <= a < |places| ==> places[a] < n
    ensures forall a, b :: 0 <= a < b < |places + [n]| ==> (places + [n])[a] < (places + [n])[b]
    ensures forall i: nat :: i in places + [n] <==> i in places || i == n
  {
  }

  lemma BlockText(context: KbContext)
    requires Contributes(context)
    ensures BlockOf(context, KbBlock(context))
  {
  }

  lemma {:induction false} KbBlocksLast(contexts: seq<KbContext>)
    requires contexts != []
    ensures var n := |contexts| - 1;
            KbBlocks(contexts)
            == KbBlocks(contexts[..n]) + (if Contributes(contexts[n]) then [KbBlock(contexts[n])] else [])
  {
    hide KbBlock, Contributes, KbBlocks;
    var n := |contexts| - 1;
    FirstBlock(contexts);
    if n == 0 {
      assert contexts[1..] == [] && contexts[..n] == [];
    } else {
      KbBlocksLast(contexts[1..]);
      FirstBlock(contexts[..n]);
      assert contexts[1..][..n - 1] == contexts[..n][1..];
    }
  }

  lemma FirstBlock(contexts: seq<KbContext>)
    requires contexts != []
    ensures KbBlocks(contexts)
            == (if Contributes(contexts[0]) then [KbBlock(contexts[0])] else []) + KbBlocks(contexts[1..])
    ensures KbBlocks([]) == []
  {
  }

  function TotalLength(parts: seq<string>): nat {
    if parts == [] then 0 else TotalLength(parts[..|parts| - 1]) + |parts[|parts| - 1]|
  }

  // `parts` is the longest run of blocks that fits into `space`; if more blocks
  // follow, the next one is cut to the space left, provided that exceeds 100.
  ghost predicate FillsBudget(blocks: seq<string>, space: nat, parts: seq<string>) {
    exists n: nat :: FillsWith(blocks, space, parts, n)
  }

  ghost predicate FillsWith(blocks: seq<string>, space: nat, parts: seq<string>, n: nat) {
    && n <= |blocks| && n <= |parts|
    && parts[..n] == blocks[..n]
    && TotalLength(parts[..n]) <= space
    && (n == |blocks| ==> |parts| == n)
    && (n < |blocks| ==> StopsAt(blocks[n], space, TotalLength(parts[..n]), parts[n..]))
  }

  // The block that no longer fits behind `used` characters ends the text: cut
  // to what is left if that exceeds 100 characters, dropped otherwise.
  ghost predicate StopsAt(block: string, space: nat, used: nat, rest: seq<string>)
    requires used <= space
  {
    && (space == 0 || used + |block| > space)
    && rest == if space > 0 && space - used > 100 then [block[..space - used] + "\n(truncated...)\n\n"] else []
  }

  method FillKnowledge(contexts: seq<KbContext>, remainingSpace: nat) returns (parts: seq<string>)
    ensures FillsBudget(KbBlocks(contexts), remainingSpace, parts)
  {
    hide KbBlock, KbBlocks, TotalLength, FillsWith;
    parts := [];
    var currentLength := 0;
    ghost var blocks := KbBlocks(contexts);
    NothingYet(contexts);
    for i := 0 to |contexts|
      invariant blocks == parts + KbBlocks(contexts[i..])
      invariant currentLength == TotalLength(parts) <= remainingSpace
    {
      if remainingSpace == 0 {
        break;
      }
      ghost var rest := KbBlocks(contexts[i + 1..]);
      KbBlocksStep(contexts, i);
      if !Contributes(contexts[i]) {
        continue;
      }
      var block := KbBlock(contexts[i]);
      ConcatThree(parts, block, rest);
      TotalLengthStep(parts, block);
      if currentLength + |block| <= remainingSpace {
        parts := parts + [block];
        currentLength := currentLength + |block|;
      } else {
        ghost var taken := parts;
        var available := remainingSpace - currentLength;
        if available > 100 {
          parts := parts + [block[..available] + TRUNCATED_NOTE];
        }
        StopsWith(blocks, remainingSpace, taken, parts);
        return;
      }
    }
    FitsWhole(contexts, remainingSpace, blocks, parts);
  }

  lemma NothingYet(contexts: seq<KbContext>)
    ensures KbBlocks(contexts) == [] + KbBlocks(contexts[0..]) && TotalLength([]) == 0
    ensures KbBlocks(contexts[|contexts|..]) == []
  {
    assert contexts[0..] == contexts;
  }

  lemma FitsWhole(contexts: seq<KbContext>, space: nat, blocks: seq<string>, parts: seq<string>)
    requires TotalLength(parts) <= space
    requires blocks == parts || (space == 0 && parts <= blocks)
    ensures FillsWith(blocks, space, parts, |parts|)
  {
    assert parts[..|parts|] == parts == blocks[..|parts|];
  }

  lemma StopsWith(blocks: seq<string>, space: nat, taken: seq<string>, parts: seq<string>)
    requires taken < blocks && TotalLength(taken) <= space && taken <= parts
    requires StopsAt(blocks[|taken|], space, TotalLength(taken), parts[|taken|..])
    ensures FillsWith(blocks, space, parts, |taken|)
  {
    hide StopsAt;
    assert parts[..|taken|] == taken == blocks[..|taken|];
  }

  lemma KbBlocksStep(contexts: seq<KbContext>, i: nat)
    requires i < |contexts|
    ensures KbBlocks(contexts[i..])
            == (if Contributes(contexts[i]) then [KbBlock(contexts[i])] else []) + KbBlocks(contexts[i + 1..])
  {
    assert contexts[i..][1..] == contexts[i + 1..];
  }

  lemma ConcatThree(a: seq<string>, b: string, c: seq<string>)
    ensures a + ([b] + c) == (a + [b]) + c
    ensures (a + ([b] + c))[|a|] == b
  {
    hide TotalLength;
  }

  lemma TotalLengthStep(a: seq<string>, b: string)
    ensures TotalLength(a + [b]) == TotalLength(a) + |b|
  {
    assert (a + [b])[..|a|] == a;
  }

  // The text exceeds the space by at most the fixed note, and then only in its
  // last part; all other parts are whole blocks, taken in order.
  lemma BudgetLaw(blocks: seq<string>, space: nat, parts: seq<string>)
    requires FillsBudget(blocks, space, parts)
    ensures TotalLength(parts) <= space + |TRUNCATED_NOTE| && |TRUNCATED_NOTE| == 17
    ensures forall k :: 0 <= k < |parts| - 1 ==> k < |blocks| && parts[k] == blocks[k]
    ensures |parts| <= |blocks|
    ensures space == 0 ==> TotalLength(parts) == 0
  {
    var n: nat :| FillsWith(blocks, space, parts, n);
    assert parts == parts[..n] + parts[n..];
    if |parts| > n {
      assert parts[..|parts| - 1] == parts[..n];
    } else {
      assert parts[..n] == parts;
    }
    assert forall k :: 0 <= k < n ==> parts[k] == parts[..n][k];
  }

  lemma {:induction false} TotalLengthGrows(blocks: seq<string>, m: nat, n: nat)
    requires m <= n <= |blocks|
    ensures TotalLength(blocks[..m]) <= TotalLength(blocks[..n])
  {
    if m < n {
      TotalLengthGrows(blocks, m, n - 1);
      assert blocks[..n][..n - 1] == blocks[..n - 1];
    }
  }

  // Blocks are never empty, and then the budget determines the parts.
  lemma BudgetUnique(blocks: seq<string>, space: nat, a: seq<string>, b: seq<string>)
    requires forall block <- blocks :: block != ""
    requires FillsBudget(blocks, space, a) && FillsBudget(blocks, space, b)
    ensures a == b
  {
    var m: nat :| FillsWith(blocks, space, a, m);
    var n: nat :| FillsWith(blocks, space, b, n);
    hide FillsWith;
    StopsFirst(blocks, space, a, m, b, n);
    StopsFirst(blocks, space, b, n, a, m);
    SameStop(blocks, space, a, b, m);
  }

  lemma SameStop(blocks: seq<string>, space: nat, a: seq<string>, b: seq<string>, n: nat)
    requires FillsWith(blocks, space, a, n) && FillsWith(blocks, space, b, n)
    ensures a == b
  {
    hide TotalLength;
    assert a[n..] == b[n..];
    assert a == a[..n] + a[n..] && b == b[..n] + b[n..];
  }

  lemma StopsFirst(blocks: seq<string>, space: nat, a: seq<string>, m: nat, b: seq<string>, n: nat)
    requires forall block <- blocks :: block != ""
    requires FillsWith(blocks, space, a, m) && FillsWith(blocks, space, b, n)
    ensures n <= m
  {
    if m < n {
      assert blocks[m] in blocks && blocks[..m + 1][..m] == blocks[..m];
      TotalLengthGrows(blocks, m + 1, n);
    }
  }

  lemma {:induction false} KbBlocksNonempty(contexts: seq<KbContext>)
    ensures forall block <- KbBlocks(contexts) :: block != ""
  {
    if contexts != [] {
      KbBlocksNonempty(contexts[1..]);
    }
  }

  // Attachment text is never cut here; what knowledge bases add on top stays
  // within the configured maximum plus the note.
  lemma ContextTextBounded(attachments: seq<string>, maxLength: nat, blocks: seq<string>, parts: seq<string>)
    requires FillsBudget(blocks, Headroom(maxLength, TotalLength(attachments)), parts)
    ensures var total := TotalLength(attachments) + TotalLength(parts);
            total <= TotalLength(attachments) || total <= maxLength + 17
  {
    BudgetLaw(blocks, Headroom(maxLength, TotalLength(attachments)), parts);
  }

  // The text of both kinds for one user turn: attachments are never cut, and
  // knowledge bases get what they leave of the configured maximum.
  method FillContext(attachments: seq<string>, contexts: seq<KbContext>, maxLength: nat)
    returns (parts: seq<string>)
    ensures FillsBudget(KbBlocks(contexts), Headroom(maxLength, TotalLength(attachments)), parts)
  {
    var total := 0;
    for i := 0 to |attachments|
      invariant total == TotalLength(attachments[..i])
    {
      assert attachments[..i + 1][..i] == attachments[..i];
      total := total + |attachments[i]|;
    }
    assert attachments[..|attachments|] == attachments;
    parts := FillKnowledge(contexts, Headroom(maxLength, total));
  }

  // Contexts, attachments and maximum determine the text: one list of parts
  // fits the budget rule, and whatever fits it stays within the bound.
  lemma ContextTextLaw(attachments: seq<string>, contexts: seq<KbContext>, maxLength: nat, parts: seq<string>)
    requires FillsBudget(KbBlocks(contexts), Headroom(maxLength, TotalLength(attachments)), parts)
    ensures forall other :: FillsBudget(KbBlocks(contexts), Headroom(maxLength, TotalLength(attachments)), other)
                            ==> other == parts
    ensures var total := TotalLength(attachments) + TotalLength(parts);
            total <= TotalLength(attachments) || total <= maxLength + 17
  {
    var blocks, space := KbBlocks(contexts), Headroom(maxLength, TotalLength(attachments));
    KbBlocksNonempty(contexts);
    forall other | FillsBudget(blocks, space, other)
      ensures other == parts
    {
      BudgetUnique(blocks, space, other, parts);
    }
    ContextTextBounded(attachments, maxLength, blocks, parts);
  }
}
