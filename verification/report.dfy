/** The text of the error reports: the negatives message the source builds in
    its 256-byte buffer and the invalid-input message its tests expect. */
module Report {
  import opened Decimal
  import opened Tokens
  import Aggregate

  const NegativesPrefix: string := "Exception: negatives not allowed: "
  const ValueSeparator: string := ", "
  const InvalidInputMessage: string := "Exception: Invalid input"

  /** The prefix followed by every negative, rendered by `%d` and joined with ", ". */
  function NegativesMessage(negatives: seq<int>): string {
    NegativesPrefix + JoinWith(Renders(negatives), ValueSeparator)
  }

  /** The reporting loop of the source: walk the values, append ", " before
      every negative but the first and then the value itself. */
  method CollectNegatives(ns: seq<int>) returns (negatives: seq<int>, message: string)
    ensures negatives == Aggregate.Negatives(ns)
    ensures message == NegativesMessage(negatives)
  {
    negatives := [];
    message := NegativesPrefix;
    var i := 0;
    while i < |ns|
      invariant 0 <= i <= |ns|
      invariant negatives == Aggregate.Negatives(ns[..i])
      invariant message == NegativesMessage(negatives)
    {
      assert ns[..i + 1] == ns[..i] + [ns[i]];
      Aggregate.NegativesAppend(ns[..i], [ns[i]]);
      if ns[i] < 0 {
        MessageSnoc(negatives, ns[i]);
        if |negatives| > 0 {
          message := message + ValueSeparator;
        }
        message := message + IntToString(ns[i]);
        negatives := negatives + [ns[i]];
      }
      i := i + 1;
    }
    assert ns[..i] == ns;
  }

  /** Reporting one more value appends ", " (unless it is the first) and the value. */
  lemma MessageSnoc(negatives: seq<int>, v: int)
    ensures NegativesMessage(negatives + [v]) ==
      NegativesMessage(negatives) + (if |negatives| > 0 then ValueSeparator else []) + IntToString(v)
  {
    JoinSnoc(Renders(negatives), IntToString(v), ValueSeparator);
    assert Renders(negatives + [v]) == Renders(negatives) + [IntToString(v)];
  }

  lemma {:induction false} JoinSnoc(ts: seq<string>, t: string, sep: string)
    ensures JoinWith(ts + [t], sep) == if |ts| == 0 then t else JoinWith(ts, sep) + sep + t
  {
    if |ts| == 1 {
      assert ts + [t] == [ts[0], t];
    } else if |ts| > 1 {
      assert (ts + [t])[1..] == ts[1..] + [t];
      JoinSnoc(ts[1..], t, sep);
    }
  }

  /** The message can be read back: after the fixed prefix, splitting on ','
      and ' ' and converting each piece with `strtol` gives the reported values,
      in order. */
  lemma NegativesMessageRoundTrip(negatives: seq<int>)
    ensures |NegativesMessage(negatives)| >= |NegativesPrefix|
    ensures NegativesMessage(negatives)[..|NegativesPrefix|] == NegativesPrefix
    ensures ParseAll(Split(NegativesMessage(negatives)[|NegativesPrefix|..], {',', ' '})) == negatives
  {
    var body := JoinWith(Renders(negatives), ValueSeparator);
    assert NegativesMessage(negatives)[|NegativesPrefix|..] == body;
    var ts := Renders(negatives);
    forall i | 0 <= i < |ts|
      ensures |ts[i]| > 0 && NoneIn(ts[i], {',', ' '})
    {
      assert ts[i] == IntToString(negatives[i]);
    }
    SplitJoin(ts, ValueSeparator, {',', ' '});
    ParseAllRenders(negatives);
  }
}
