/**
  A session token tagged with where it came from, and the merge policy that
  decides which of two tokens for the same container is kept.
 */
module SessionTokens {
  import opened Wrappers

  /** Where a token was observed. */
  datatype SessionTokenSource = FromIncomingRequest | FromRead | FromWrite

  /**
    An immutable (source, token) pair. As a C# record struct its equality is
    value equality on both fields, which is exactly Dafny's datatype equality.
   */
  datatype SessionTokenWithSource = SessionTokenWithSource(source: SessionTokenSource, sessionToken: string)

  /**
    `existing.ChooseTokenToKeepBySourcePriority(newerToken)`: a write-sourced token
    is never replaced by a read- or request-sourced one; otherwise the newer one wins.
   */
  function ChooseTokenToKeepBySourcePriority(existing: SessionTokenWithSource, newerToken: SessionTokenWithSource)
    : (kept: SessionTokenWithSource)
    ensures newerToken.source == FromWrite ==> kept == newerToken
    ensures newerToken.source != FromWrite && existing.source == FromWrite ==> kept == existing
    ensures newerToken.source != FromWrite && existing.source != FromWrite ==> kept == newerToken
  {
    if newerToken.source == FromWrite then newerToken
    else if existing.source == FromWrite then existing
    else newerToken
  }

  /** The kept token is one of the two inputs, and it is write-sourced iff one of them is. */
  lemma KeptIsAnInputAndWriteIsSticky(existing: SessionTokenWithSource, newerToken: SessionTokenWithSource)
    ensures var kept := ChooseTokenToKeepBySourcePriority(existing, newerToken);
      && (kept == existing || kept == newerToken)
      && (kept.source == FromWrite <==> existing.source == FromWrite || newerToken.source == FromWrite)
  {
  }

  /** Merging a token with itself gives it back. */
  lemma ChooseIsIdempotent(t: SessionTokenWithSource)
    ensures ChooseTokenToKeepBySourcePriority(t, t) == t
  {
  }

  /** Merging the tokens of a sequence one after the other, oldest first. */
  function KeepAll(tokens: seq<SessionTokenWithSource>): SessionTokenWithSource
    requires |tokens| > 0
  {
    if |tokens| == 1 then tokens[0]
    else ChooseTokenToKeepBySourcePriority(KeepAll(tokens[..|tokens| - 1]), tokens[|tokens| - 1])
  }

  /** The index of the last write-sourced token, if any. */
  function LastWriteIndex(tokens: seq<SessionTokenWithSource>): (r: Option<nat>)
    ensures r.Some? ==> r.value < |tokens| && tokens[r.value].source == FromWrite
    ensures r.Some? ==> forall j :: r.value < j < |tokens| ==> tokens[j].source != FromWrite
    ensures r.None? ==> forall j :: 0 <= j < |tokens| ==> tokens[j].source != FromWrite
  {
    if |tokens| == 0 then None
    else if tokens[|tokens| - 1].source == FromWrite then Some(|tokens| - 1)
    else LastWriteIndex(tokens[..|tokens| - 1])
  }

  /**
    Folding the merge policy over a sequence keeps the last write-sourced token
    if there is one, and otherwise the last token.
   */
  lemma {:induction false} KeepAllKeepsLastWrite(tokens: seq<SessionTokenWithSource>)
    requires |tokens| > 0
    ensures KeepAll(tokens) == match LastWriteIndex(tokens)
                              case Some(i) => tokens[i]
                              case None => tokens[|tokens| - 1]
  {
    if |tokens| > 1 {
      var prefix := tokens[..|tokens| - 1];
      KeepAllKeepsLastWrite(prefix);
      if tokens[|tokens| - 1].source != FromWrite {
        assert LastWriteIndex(tokens) == LastWriteIndex(prefix);
        match LastWriteIndex(prefix)
        case Some(i) =>
          assert prefix[i] == tokens[i];
        case None =>
      }
    }
  }
}
