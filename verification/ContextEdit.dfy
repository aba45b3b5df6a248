/** The context edit: find every place where a snippet occurs, choose one, and replace the old text there. */
module ContextEdit {
  import opened Text
  import opened Wrappers

  predicate Occurs(content: string, needle: string, i: nat) {
    i + |needle| <= |content| && content[i..i + |needle|] == needle
  }

  /** strings.Index from an offset on: the first occurrence there, or none. */
  function IndexFrom(content: string, needle: string, offset: nat): (r: Option<nat>)
    ensures r.Some? ==> offset <= r.value && Occurs(content, needle, r.value)
    ensures forall i :: offset <= i && Occurs(content, needle, i) ==> r.Some? && r.value <= i
    decreases |content| - offset
  {
    if offset + |needle| > |content| then None
    else if content[offset..offset + |needle|] == needle then Some(offset)
    else IndexFrom(content, needle, offset + 1)
  }

  /** All occurrences from an offset on, overlapping ones included. */
  function MatchesFrom(content: string, needle: string, offset: nat): seq<nat>
    decreases |content| - offset
  {
    if needle == "" || offset >= |content| then []
    else (if Occurs(content, needle, offset) then [offset] else []) + MatchesFrom(content, needle, offset + 1)
  }

  function Matches(content: string, needle: string): seq<nat> {
    MatchesFrom(content, needle, 0)
  }

  predicate Increasing(s: seq<nat>) {
    forall i, j :: 0 <= i < j < |s| ==> s[i] < s[j]
  }

  lemma {:induction false} MatchesFromExact(content: string, needle: string, offset: nat)
    ensures Increasing(MatchesFrom(content, needle, offset))
    ensures forall i :: i in MatchesFrom(content, needle, offset)
                        <==> needle != "" && offset <= i && Occurs(content, needle, i)
    decreases |content| - offset
  {
    if needle != "" && offset < |content| {
      MatchesFromExact(content, needle, offset + 1);
      var rest := MatchesFrom(content, needle, offset + 1);
      forall j | 0 <= j < |rest| ensures offset < rest[j] { assert rest[j] in rest; }
    }
  }

  /** The matches are precisely all occurrences of a needle that is not empty, in increasing order. */
  lemma MatchesExact(content: string, needle: string)
    ensures Increasing(Matches(content, needle))
    ensures forall i :: i in Matches(content, needle) <==> needle != "" && Occurs(content, needle, i)
  {
    MatchesFromExact(content, needle, 0);
  }

  /** Where nothing occurs before `next`, the matches start there. */
  lemma {:induction false} MatchesSkip(content: string, needle: string, offset: nat, next: nat)
    requires offset <= next && forall i :: offset <= i < next ==> !Occurs(content, needle, i)
    ensures MatchesFrom(content, needle, offset) == MatchesFrom(content, needle, next)
    decreases next - offset
  {
    if offset < next {
      MatchesSkip(content, needle, offset + 1, next);
    }
  }

  method FindAllIndexes(content: string, needle: string) returns (indexes: seq<nat>)
    ensures indexes == Matches(content, needle)
  {
    indexes := [];
    if needle == "" {
      return;
    }
    var offset := 0;
    while true
      invariant offset <= |content|
      invariant indexes + MatchesFrom(content, needle, offset) == Matches(content, needle)
      decreases |content| - offset
    {
      var idx := IndexFrom(content, needle, offset);
      if idx.None? {
        MatchesSkip(content, needle, offset, |content|);
        assert indexes + [] == indexes;
        return;
      }
      MatchesSkip(content, needle, offset, idx.value);
      assert indexes + ([idx.value] + MatchesFrom(content, needle, idx.value + 1))
          == indexes + [idx.value] + MatchesFrom(content, needle, idx.value + 1);
      indexes := indexes + [idx.value];
      offset := idx.value + 1;
    }
  }

  // The edit

  datatype EditError = NoFile | ReadFails | NoMatch | Ambiguous | TooFewMatches | WriteFails

  /** Contexts that are both blank are left out of the snippet. */
  predicate Blank(before: string, after: string) {
    Trim(before) == "" && Trim(after) == ""
  }

  function Block(before: string, text: string, after: string): string {
    if Blank(before, after) then text else before + text + after
  }

  /** Where in the block the text starts. */
  function Inset(before: string, after: string): nat {
    if Blank(before, after) then 0 else |before|
  }

  /** The match that an occurrence number asks for. */
  function Choose(matches: seq<nat>, occurrence: int): Result<nat, EditError> {
    var k := if occurrence <= 0 then 1 else occurrence;
    if |matches| == 0 then Err(NoMatch)
    else if |matches| > 1 && k == 1 then Err(Ambiguous)
    else if k > |matches| then Err(TooFewMatches)
    else Ok(matches[k - 1])
  }

  function Splice(content: string, start: nat, length: nat, text: string): string
    requires start + length <= |content|
  {
    content[..start] + text + content[start + length..]
  }

  /** What an edit makes of the content. */
  function Edited(content: string, before: string, oldText: string, newText: string, after: string, occurrence: int)
    : Result<string, EditError>
  {
    var block := Block(before, oldText, after);
    match Choose(Matches(content, block), occurrence)
    case Err(e) => Err(e)
    case Ok(start) =>
      MatchIsOccurrence(content, block, occurrence);
      Ok(Splice(content, start, |block|, Block(before, newText, after)))
  }

  lemma MatchIsOccurrence(content: string, needle: string, occurrence: int)
    ensures var chosen := Choose(Matches(content, needle), occurrence);
            chosen.Ok? ==> needle != "" && Occurs(content, needle, chosen.value)
  {
    MatchesExact(content, needle);
    var matches, k := Matches(content, needle), if occurrence <= 0 then 1 else occurrence;
    if Choose(matches, occurrence).Ok? {
      assert matches[k - 1] in matches;
    }
  }

  method Pick(matches: seq<nat>, occurrence: int) returns (r: Result<nat, EditError>)
    ensures r == Choose(matches, occurrence)
  {
    if |matches| == 0 {
      return Err(NoMatch);
    }
    var k := occurrence;
    if k <= 0 {
      k := 1;
    }
    if |matches| > 1 && k == 1 {
      return Err(Ambiguous);
    }
    if k > |matches| {
      return Err(TooFewMatches);
    }
    return Ok(matches[k - 1]);
  }

  class Workspace {
    var files: map<string, string>

    constructor (files: map<string, string>)
      ensures this.files == files
    {
      this.files := files;
    }

    /** `readable` is the outcome of the read, and `spoilt` what a write that fails leaves in the file. */
    method ApplyContextEdit(
        target: string, before: string, oldText: string, newText: string, after: string, occurrence: int,
        readable: bool, spoilt: Option<string>)
      returns (r: Result<nat, EditError>)
      modifies this
      ensures target !in old(files) ==> r == Err(NoFile)
      ensures target in old(files) && !readable ==> r == Err(ReadFails)
      ensures target in old(files) && readable ==>
                var edited := Edited(old(files)[target], before, oldText, newText, after, occurrence);
                if edited.Err? then r == Err(edited.error)
                else if spoilt.Some? then r == Err(WriteFails) && files == old(files)[target := spoilt.value]
                else r.Ok? && files == old(files)[target := edited.value]
      ensures r.Err? && r.error != WriteFails ==> files == old(files)
    {
      if target !in files {
        return Err(NoFile);
      }
      if !readable {
        return Err(ReadFails);
      }
      var current := files[target];
      var searchBlock, replaceBlock := before + oldText + after, before + newText + after;
      if Trim(before) == "" && Trim(after) == "" {
        searchBlock, replaceBlock := oldText, newText;
      }
      assert searchBlock == Block(before, oldText, after) && replaceBlock == Block(before, newText, after);
      var matches := FindAllIndexes(current, searchBlock);
      var chosen := Pick(matches, occurrence);
      if chosen.Err? {
        return Err(chosen.error);
      }
      MatchIsOccurrence(current, searchBlock, occurrence);
      var start := chosen.value;
      var updated := current[..start] + replaceBlock + current[start + |searchBlock|..];
      if spoilt.Some? {
        files := files[target := spoilt.value];
        return Err(WriteFails);
      }
      files := files[target := updated];
      return Ok(start);
    }
  }

  /**
  When an edit succeeds: one match and no number above one, or the number of a later match; and why it fails
  otherwise. Contexts count unless both are blank.
  */
  lemma EditSucceeds(content: string, before: string, oldText: string, newText: string, after: string, occurrence: int)
    ensures var count := |Matches(content, if Trim(before) == "" && Trim(after) == "" then oldText else before + oldText + after)|;
            var edited := Edited(content, before, oldText, newText, after, occurrence);
            && (edited.Ok? <==> (count == 1 && occurrence <= 1) || 2 <= occurrence <= count)
            && (edited == Err(NoMatch) <==> count == 0)
            && (edited == Err(Ambiguous) <==> count > 1 && occurrence <= 1)
            && (edited == Err(TooFewMatches) <==> 1 <= count < occurrence)
  {
  }

  /** A successful edit replaces the old text inside the chosen occurrence, and nothing else. */
  lemma EditIsExact(content: string, before: string, oldText: string, newText: string, after: string, occurrence: int)
    returns (at: nat)
    requires Edited(content, before, oldText, newText, after, occurrence).Ok?
    ensures Occurs(content, oldText, at)
    ensures var k := if occurrence <= 0 then 1 else occurrence;
            if Trim(before) == "" && Trim(after) == "" then k <= |Matches(content, oldText)| && at == Matches(content, oldText)[k - 1]
            else
              var matches := Matches(content, before + oldText + after);
              && k <= |matches| && at == matches[k - 1] + |before| && Occurs(content, before + oldText + after, matches[k - 1])
    ensures Edited(content, before, oldText, newText, after, occurrence).value
            == content[..at] + newText + content[at + |oldText|..]
  {
    var block := Block(before, oldText, after);
    var start := Choose(Matches(content, block), occurrence).value;
    MatchIsOccurrence(content, block, occurrence);
    at := start + Inset(before, after);
    if !Blank(before, after) {
      SpliceInside(content, start, before, oldText, newText, after);
    }
  }

  lemma SpliceInside(content: string, start: nat, before: string, oldText: string, newText: string, after: string)
    requires Occurs(content, before + oldText + after, start)
    ensures var at := start + |before|;
            && Occurs(content, oldText, at)
            && Splice(content, start, |before + oldText + after|, before + newText + after)
               == content[..at] + newText + content[at + |oldText|..]
  {
    Inside(content, start, before, oldText, after);
    SpliceInset(content[..start], before, newText, after, content[start + |before + oldText + after|..]);
  }

  /** Around the old text inside an occurrence of the whole block. */
  lemma Inside(content: string, start: nat, before: string, text: string, after: string)
    requires Occurs(content, before + text + after, start)
    ensures var at := start + |before|;
            && Occurs(content, text, at)
            && content[..at] == content[..start] + before
            && content[at + |text|..] == after + content[start + |before + text + after|..]
  {
    var block, at := before + text + after, start + |before|;
    var a, z := content[..start], content[start + |block|..];
    assert content == a + block + z;
    assert content == (a + before) + text + (after + z);
    assert |a + before| == at;
  }

  lemma SpliceInset(a: string, before: string, text: string, after: string, z: string)
    ensures a + (before + text + after) + z == (a + before) + text + (after + z)
  {
  }

  lemma SpliceBack(content: string, start: nat, length: nat, text: string)
    requires start + length <= |content|
    ensures var edited := Splice(content, start, length, text);
            && Occurs(edited, text, start)
            && Splice(edited, start, |text|, content[start..start + length]) == content
  {
  }

  /**
  The inverse edit. The new block is one of the matches afterwards, unless it is empty; asking for it by its
  number restores the content, except when it is the first of several matches, which no number can ask for.
  */
  lemma InverseEdit(content: string, before: string, oldText: string, newText: string, after: string, occurrence: int)
    returns (k: nat)
    requires Edited(content, before, oldText, newText, after, occurrence).Ok?
    ensures var edited := Edited(content, before, oldText, newText, after, occurrence).value;
            var matches := Matches(edited, Block(before, newText, after));
            if Block(before, newText, after) == "" then
              forall n :: Edited(edited, before, newText, oldText, after, n) == Err(NoMatch)
            else
              && 1 <= k <= |matches|
              && matches[k - 1] == Choose(Matches(content, Block(before, oldText, after)), occurrence).value
              && Edited(edited, before, newText, oldText, after, k)
                 == if k == 1 && |matches| > 1 then Err(Ambiguous) else Ok(content)
  {
    var block, block' := Block(before, oldText, after), Block(before, newText, after);
    var start := Choose(Matches(content, block), occurrence).value;
    MatchIsOccurrence(content, block, occurrence);
    var edited := Splice(content, start, |block|, block');
    SpliceBack(content, start, |block|, block');
    MatchesExact(edited, block');
    k := 0;
    if block' != "" {
      var i :| 0 <= i < |Matches(edited, block')| && Matches(edited, block')[i] == start;
      k := i + 1;
    }
  }
}
