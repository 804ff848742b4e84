/** The manager's batch review: an in-place loop over the feedback file that rewrites a record it has just
    read and seeks back to where it was. Positions count records. */
module FeedbackBoard {

  datatype Feedback = Feedback(id: nat, userId: nat, message: string, reviewed: bool, actionTaken: string)

  function MarkReviewed(fb: Feedback): Feedback { fb.(reviewed := true) }

  function AllReviewed(records: seq<Feedback>): (marked: seq<Feedback>)
    ensures |marked| == |records|
    ensures forall i :: 0 <= i < |records| ==> marked[i] == MarkReviewed(records[i])
  {
    seq(|records|, i requires 0 <= i < |records| => MarkReviewed(records[i]))
  }

  /** The records a review has to list, in file order. */
  function Unreviewed(records: seq<Feedback>): seq<Feedback> {
    if |records| == 0 then []
    else
      var (front, last) := (records[..|records| - 1], records[|records| - 1]);
      if last.reviewed then Unreviewed(front) else Unreviewed(front) + [last]
  }

  lemma {:induction false} NoneUnreviewed(records: seq<Feedback>)
    ensures Unreviewed(records) == [] <==> forall i :: 0 <= i < |records| ==> records[i].reviewed
  {
    if |records| > 0 {
      NoneUnreviewed(records[..|records| - 1]);
    }
  }

  ghost predicate Increasing(at: seq<nat>) { forall i, j :: 0 <= i < j < |at| ==> at[i] < at[j] }

  /** The positions are those of the unreviewed records and of no others. */
  ghost predicate AreUnreviewed(at: seq<nat>, records: seq<Feedback>) {
    forall i: nat :: i in at <==> i < |records| && !records[i].reviewed
  }

  ghost predicate Shows(listed: seq<Feedback>, records: seq<Feedback>, at: seq<nat>) {
    |listed| == |at| && forall j :: 0 <= j < |at| ==> at[j] < |records| && listed[j] == records[at[j]]
  }

  /** The listing shows the unreviewed records, each once and in file order. */
  ghost predicate ListsUnreviewed(listed: seq<Feedback>, records: seq<Feedback>, at: seq<nat>) {
    Increasing(at) && AreUnreviewed(at, records) && Shows(listed, records, at)
  }

  lemma ListsOneMore(listed: seq<Feedback>, records: seq<Feedback>, at: seq<nat>, n: nat)
    requires |records| == n + 1 && ListsUnreviewed(listed, records[..n], at)
    ensures records[n].reviewed ==> ListsUnreviewed(listed, records, at)
    ensures !records[n].reviewed ==> ListsUnreviewed(listed + [records[n]], records, at + [n])
  {
    IncreasingOneMore(at, records, n);
    UnreviewedOneMore(at, records, n);
    ShowsOneMore(listed, records, at, n);
  }

  lemma IncreasingOneMore(at: seq<nat>, records: seq<Feedback>, n: nat)
    requires |records| == n + 1 && Increasing(at) && AreUnreviewed(at, records[..n])
    ensures Increasing(at + [n])
  {
    forall i | 0 <= i < |at| ensures at[i] < n {
      assert at[i] in at;
    }
  }

  lemma UnreviewedOneMore(at: seq<nat>, records: seq<Feedback>, n: nat)
    requires |records| == n + 1 && AreUnreviewed(at, records[..n])
    ensures AreUnreviewed(if records[n].reviewed then at else at + [n], records)
  {
    var at' := if records[n].reviewed then at else at + [n];
    forall i: nat ensures i in at' <==> i < |records| && !records[i].reviewed {
      assert i in at' <==> i in at || (!records[n].reviewed && i == n);
      assert i < n ==> records[..n][i] == records[i];
    }
  }

  lemma ShowsOneMore(listed: seq<Feedback>, records: seq<Feedback>, at: seq<nat>, n: nat)
    requires |records| == n + 1 && Shows(listed, records[..n], at)
    ensures Shows(listed, records, at) && Shows(listed + [records[n]], records, at + [n])
  {
    forall j | 0 <= j < |at| ensures at[j] < |records| && listed[j] == records[at[j]] {
      assert records[..n][at[j]] == records[at[j]];
    }
  }

  lemma {:induction false} UnreviewedPositions(records: seq<Feedback>) returns (at: seq<nat>)
    ensures ListsUnreviewed(Unreviewed(records), records, at)
  {
    if |records| == 0 {
      at := [];
    } else {
      var n := |records| - 1;
      at := UnreviewedPositions(records[..n]);
      ListsOneMore(Unreviewed(records[..n]), records, at, n);
      at := if records[n].reviewed then at else at + [n];
    }
  }

  /** As many records are listed as there are unreviewed ones. */
  lemma {:induction false} UnreviewedCount(records: seq<Feedback>)
    ensures |Unreviewed(records)| == |set i: nat | i < |records| && !records[i].reviewed|
  {
    var all := set i: nat | i < |records| && !records[i].reviewed;
    if |records| == 0 {
      assert all == {};
    } else {
      var n := |records| - 1;
      UnreviewedCount(records[..n]);
      var front := set i: nat | i < |records[..n]| && !records[..n][i].reviewed;
      assert all == if records[n].reviewed then front else front + {n};
    }
  }

  /** Running the review twice changes nothing and finds nothing the second time. */
  lemma ReviewIsIdempotent(records: seq<Feedback>)
    ensures AllReviewed(AllReviewed(records)) == AllReviewed(records)
    ensures Unreviewed(AllReviewed(records)) == []
  {
    NoneUnreviewed(AllReviewed(records));
  }

  /** The review keeps identifiers, users, messages and actions. */
  lemma ReviewKeepsContents(records: seq<Feedback>, i: nat)
    requires i < |records|
    ensures var (before, after) := (records[i], AllReviewed(records)[i]);
            && after.reviewed && after.id == before.id && after.userId == before.userId
            && after.message == before.message && after.actionTaken == before.actionTaken
    ensures AllReviewed(records) == records <==> Unreviewed(records) == []
  {
    NoneUnreviewed(records);
    if AllReviewed(records) == records {
      forall j | 0 <= j < |records| ensures records[j].reviewed {
        assert AllReviewed(records)[j] == MarkReviewed(records[j]);
      }
    }
  }

  class Board {
    var records: seq<Feedback>

    ghost predicate Dense()
      reads this
    {
      forall i :: 0 <= i < |records| ==> records[i].id == i + 1
    }

    constructor ()
      ensures records == [] && Dense()
    {
      records := [];
    }

    method AddFeedback(userId: nat, message: string) returns (id: nat)
      requires Dense()
      modifies this
      ensures Dense()
      ensures records == old(records) + [Feedback(id, userId, message, false, "")]
    {
      id := |records| + 1;
      records := records + [Feedback(id, userId, message, false, "")];
    }

    /** The batch review. `cursor` is the file position: a read moves it on by one record, the rewrite seeks
        back to `pos`, writes, and seeks to the record after it. */
    method ReviewFeedbacks() returns (listed: seq<Feedback>, count: nat)
      modifies this
      ensures records == AllReviewed(old(records))
      ensures forall i :: 0 <= i < |records| ==> records[i] == old(records)[i].(reviewed := true)
      ensures exists at: seq<nat> :: ListsUnreviewed(listed, old(records), at)
      ensures count == |listed| == |set i: nat | i < |old(records)| && !old(records)[i].reviewed|
      ensures old(Dense()) ==> Dense()
    {
      var pos, cursor := 0, 0;
      listed, count := [], 0;
      while cursor < |records|
        invariant 0 <= pos <= |records| && cursor == pos && |records| == |old(records)|
        invariant forall i :: 0 <= i < pos ==> records[i] == MarkReviewed(old(records)[i])
        invariant forall i :: pos <= i < |records| ==> records[i] == old(records)[i]
        invariant listed == Unreviewed(old(records)[..pos]) && count == |listed|
        decreases |records| - cursor
      {
        assert old(records)[..pos + 1][..pos] == old(records)[..pos];
        var fb := records[cursor];
        cursor := cursor + 1;
        if !fb.reviewed {
          listed := listed + [fb];
          cursor := pos;
          records := records[cursor := MarkReviewed(fb)];
          cursor := pos + 1;
          count := count + 1;
        }
        pos := pos + 1;
      }
      assert old(records)[..pos] == old(records);
      ghost var at := UnreviewedPositions(old(records));
      UnreviewedCount(old(records));
    }
  }
}
