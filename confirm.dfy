/**
 * `get_user_confirmation`: the yes/no prompt shown after each conversion. A reply
 * is trimmed and lower-cased; an empty reply takes the default, `y`/`yes`/`是`
 * confirm, `n`/`no`/`否` refuse, and anything else asks again. The replies the
 * user types are given as a sequence; running out of them is `input()` hitting
 * end of file.
 */
module Confirm {
  import opened Wrappers
  import opened Strings

  const YesWords: seq<string> := ["y", "yes", "是"]
  const NoWords: seq<string> := ["n", "no", "否"]

  /** The prompt with its hint; the capital letter marks the default answer. */
  function PromptLine(prompt: string, defaultConfirm: bool): (r: string)
    ensures |r| == |prompt| + 5 && r[..|prompt|] == prompt
    ensures r[|prompt|] == '[' && r[|prompt| + 2] == '/' && r[|prompt| + 4] == ']'
    ensures defaultConfirm <==> r[|prompt| + 1] == 'Y' && r[|prompt| + 3] == 'n'
    ensures !defaultConfirm <==> r[|prompt| + 1] == 'y' && r[|prompt| + 3] == 'N'
  {
    prompt + (if defaultConfirm then "[Y/n]" else "[y/N]")
  }

  /** The reply as the loop compares it. */
  function Normalised(response: string): string {
    Lower(Strip(response))
  }

  /** The decision on a normalised reply; `None` is an invalid reply, after which the loop asks again. */
  function Decide(reply: string, defaultConfirm: bool): Option<bool> {
    if reply == "" then Some(defaultConfirm)
    else if reply in YesWords then Some(true)
    else if reply in NoWords then Some(false)
    else None
  }

  /** The decision for one reply as typed. */
  function Classify(response: string, defaultConfirm: bool): Option<bool> {
    Decide(Normalised(response), defaultConfirm)
  }

  /** A reply normalises to the empty text exactly when it is all whitespace. */
  lemma BlankIff(response: string)
    ensures Normalised(response) == "" <==> AllSpace(response)
  {
    if Normalised(response) == "" {
      var p, q := StripSplit(response);
      assert Strip(response) == "";
      assert response == p + q;
      AllSpaceConcat(p, q);
    }
    if AllSpace(response) {
      StripAllSpace(response);
    }
  }

  /** A reply confirms exactly when it is a yes-word, or blank while the default is yes. */
  lemma ConfirmIff(response: string, defaultConfirm: bool)
    ensures Classify(response, defaultConfirm) == Some(true) <==>
      Normalised(response) in YesWords || (Normalised(response) == "" && defaultConfirm)
  {
  }

  /** A reply refuses exactly when it is a no-word, or blank while the default is no. */
  lemma RefuseIff(response: string, defaultConfirm: bool)
    ensures Classify(response, defaultConfirm) == Some(false) <==>
      Normalised(response) in NoWords || (Normalised(response) == "" && !defaultConfirm)
  {
    DecideRefuse(Normalised(response), defaultConfirm);
  }

  lemma DecideRefuse(reply: string, defaultConfirm: bool)
    ensures Decide(reply, defaultConfirm) == Some(false) <==> reply in NoWords || (reply == "" && !defaultConfirm)
  {
  }

  /** A reply is refused as invalid exactly when it is neither blank nor one of the six words. */
  lemma InvalidIff(response: string, defaultConfirm: bool)
    ensures Classify(response, defaultConfirm).None? <==>
      Normalised(response) != "" && Normalised(response) !in YesWords && Normalised(response) !in NoWords
  {
  }

  /** Whitespace around a reply does not change the decision. */
  lemma PaddingIgnored(p: string, response: string, q: string, defaultConfirm: bool)
    requires AllSpace(p) && AllSpace(q)
    ensures Classify(p + response + q, defaultConfirm) == Classify(response, defaultConfirm)
  {
    StripIgnoresPadding(p, response, q);
  }

  /** Replies that differ only in the case of their letters get the same decision. */
  lemma CaseIgnored(a: string, b: string, defaultConfirm: bool)
    requires Lower(a) == Lower(b)
    ensures Classify(a, defaultConfirm) == Classify(b, defaultConfirm)
  {
    StripLower(a);
    StripLower(b);
    assert Normalised(a) == Normalised(b);
  }

  /** The decision on each reply in turn. */
  function Decisions(replies: seq<string>, defaultConfirm: bool): (r: seq<Option<bool>>)
    ensures |r| == |replies|
  {
    if replies == [] then []
    else Decisions(replies[..|replies| - 1], defaultConfirm) + [Classify(replies[|replies| - 1], defaultConfirm)]
  }

  lemma {:induction false} DecisionsAt(replies: seq<string>, defaultConfirm: bool, j: nat)
    requires j < |replies|
    ensures Decisions(replies, defaultConfirm)[j] == Classify(replies[j], defaultConfirm)
  {
    if j < |replies| - 1 {
      DecisionsAt(replies[..|replies| - 1], defaultConfirm, j);
    }
  }

  /** One pass of the loop body: `input(prompt).strip().lower()` and the three tests. */
  method ReadReply(replies: seq<string>, i: nat, defaultConfirm: bool) returns (decision: Option<bool>)
    requires i < |replies|
    ensures decision == Decisions(replies, defaultConfirm)[i]
  {
    var response := Normalised(replies[i]);
    DecisionsAt(replies, defaultConfirm, i);
    if response == "" {
      return Some(defaultConfirm);
    }
    if response in YesWords {
      return Some(true);
    }
    if response in NoWords {
      return Some(false);
    }
    return None;
  }

  /**
   * The `while True` loop over the user's replies: the decision of the first valid
   * reply and how many replies were read, or `None` when the replies ran out first.
   */
  method GetUserConfirmation(replies: seq<string>, defaultConfirm: bool) returns (answer: Option<bool>, read: nat)
    ensures read <= |replies|
    ensures forall j :: 0 <= j < read - 1 ==> Decisions(replies, defaultConfirm)[j].None?
    ensures answer.Some? ==> 0 < read && Decisions(replies, defaultConfirm)[read - 1] == answer
    ensures answer.None? ==> read == |replies| && forall j :: 0 <= j < |replies| ==> Decisions(replies, defaultConfirm)[j].None?
  {
    read := 0;
    while read < |replies|
      invariant read <= |replies|
      invariant forall j :: 0 <= j < read ==> Decisions(replies, defaultConfirm)[j].None?
    {
      var decision := ReadReply(replies, read, defaultConfirm);
      read := read + 1;
      if decision.Some? {
        return decision, read;
      }
    }
    return None, read;
  }
}
