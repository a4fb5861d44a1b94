/**
 * The transcript accumulator of the recogniser's `onresult` handler.
 *
 * A recognition event carries the list of results heard so far and the
 * index of the first result that changed. Each result is the first (and,
 * with one alternative requested, only) hypothesis's transcript and a flag
 * saying whether the recogniser has committed to it. The handler walks the
 * changed results in order and appends each transcript to the final or to
 * the interim text according to that flag.
 */
module Recognition {

  /** `event.results[i]`, reduced to `[0].transcript` and `isFinal`. */
  datatype RecognitionResult = RecognitionResult(transcript: string, isFinal: bool)

  /** The transcripts of the results whose flag is `final`, joined in order. */
  function Joined(rs: seq<RecognitionResult>, final: bool): string
  {
    if rs == [] then ""
    else Joined(rs[..|rs| - 1], final) + (if rs[|rs| - 1].isFinal == final then rs[|rs| - 1].transcript else "")
  }

  /** Every transcript, final or not, joined in order. */
  function AllTranscripts(rs: seq<RecognitionResult>): string
  {
    if rs == [] then "" else AllTranscripts(rs[..|rs| - 1]) + rs[|rs| - 1].transcript
  }

  /** The results the handler reads: from `resultIndex` to the end, none when the index is past the end. */
  function Changed(results: seq<RecognitionResult>, resultIndex: nat): (r: seq<RecognitionResult>)
    ensures |r| == if resultIndex <= |results| then |results| - resultIndex else 0
    ensures forall k :: 0 <= k < |r| ==> r[k] == results[resultIndex + k]
  {
    if resultIndex <= |results| then results[resultIndex..] else []
  }

  /** The loop of `onresult`: the final and the interim transcript of the changed results. */
  method CollectTranscripts(results: seq<RecognitionResult>, resultIndex: nat) returns (finalTranscript: string, interimTranscript: string)
    ensures finalTranscript == Joined(Changed(results, resultIndex), true)
    ensures interimTranscript == Joined(Changed(results, resultIndex), false)
  {
    interimTranscript := "";
    finalTranscript := "";
    var i := resultIndex;
    while i < |results|
      invariant resultIndex <= i
      invariant i > |results| ==> i == resultIndex && finalTranscript == "" && interimTranscript == ""
      invariant i <= |results| ==> finalTranscript == Joined(results[resultIndex..i], true)
      invariant i <= |results| ==> interimTranscript == Joined(results[resultIndex..i], false)
      decreases |results| - i
    {
      var transcript := results[i].transcript;
      assert results[resultIndex..i + 1][..i - resultIndex] == results[resultIndex..i];
      if results[i].isFinal {
        finalTranscript := finalTranscript + transcript;
      } else {
        interimTranscript := interimTranscript + transcript;
      }
      i := i + 1;
    }
    if resultIndex <= |results| {
      assert results[resultIndex..i] == Changed(results, resultIndex);
    }
  }

  /** Joining distributes over concatenation of result lists. */
  lemma {:induction false} JoinedAppend(a: seq<RecognitionResult>, b: seq<RecognitionResult>, final: bool)
    ensures Joined(a + b, final) == Joined(a, final) + Joined(b, final)
    decreases |b|
  {
    if b == [] {
      assert a + b == a;
    } else {
      var b' := b[..|b| - 1];
      assert (a + b)[..|a + b| - 1] == a + b';
      JoinedAppend(a, b', final);
    }
  }

  /** The final text is empty exactly when every final result has an empty transcript: the
      handler hands a recording over only if some final result carries words. */
  lemma {:induction false} FinalEmptyIff(rs: seq<RecognitionResult>)
    ensures Joined(rs, true) == "" <==> forall k :: 0 <= k < |rs| && rs[k].isFinal ==> rs[k].transcript == ""
  {
    if rs != [] {
      var init := rs[..|rs| - 1];
      FinalEmptyIff(init);
      assert forall k :: 0 <= k < |init| ==> init[k] == rs[k];
    }
  }

  /** No text is lost or invented: the final and the interim text together are as long as all transcripts. */
  lemma {:induction false} LengthsAddUp(rs: seq<RecognitionResult>)
    ensures |Joined(rs, true)| + |Joined(rs, false)| == |AllTranscripts(rs)|
  {
    if rs != [] {
      LengthsAddUp(rs[..|rs| - 1]);
    }
  }

  /** When every result is final, the final text is every transcript in order and the interim text is empty. */
  lemma {:induction false} AllFinal(rs: seq<RecognitionResult>)
    requires forall k :: 0 <= k < |rs| ==> rs[k].isFinal
    ensures Joined(rs, true) == AllTranscripts(rs)
    ensures Joined(rs, false) == ""
  {
    if rs != [] {
      var init := rs[..|rs| - 1];
      assert forall k :: 0 <= k < |init| ==> init[k] == rs[k];
      AllFinal(init);
    }
  }

  /** When no result is final, the interim text is every transcript in order and the final text is empty. */
  lemma {:induction false} NoneFinal(rs: seq<RecognitionResult>)
    requires forall k :: 0 <= k < |rs| ==> !rs[k].isFinal
    ensures Joined(rs, false) == AllTranscripts(rs)
    ensures Joined(rs, true) == ""
  {
    if rs != [] {
      var init := rs[..|rs| - 1];
      assert forall k :: 0 <= k < |init| ==> init[k] == rs[k];
      NoneFinal(init);
    }
  }
}
