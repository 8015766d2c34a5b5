/** The bits of fields_seen, by which pb_decode_inner finds out that a required field is
    missing. */
module ProtoRequired {
  import opened ProtoDecode
  import opened ProtoSchema

  /** The bits of fields_seen stand for the fields that have been met. */
  ghost predicate BitsAre(fields: seq<Field>, bits: seq<bool>, seen: set<nat>) {
    && |bits| == PB_MAX_REQUIRED_FIELDS
    && forall i ::
      0 <= i < |fields| && fields[i].htype == Required && RequiredBefore(fields, i) < PB_MAX_REQUIRED_FIELDS ==>
         (bits[RequiredBefore(fields, i)] <==> i in seen)
  }

  lemma NothingSeen(fields: seq<Field>)
    ensures BitsAre(fields, seq(PB_MAX_REQUIRED_FIELDS, _ => false), {})
  {
  }

  lemma {:induction false} RequiredGrows(fields: seq<Field>, i: nat, j: nat)
    requires i < j <= |fields|
    ensures RequiredBefore(fields, i) + (if fields[i].htype == Required then 1 else 0) <= RequiredBefore(fields, j)
  {
    if i + 1 < j {
      RequiredGrows(fields, i, j - 1);
    }
  }

  lemma MarkOne(fields: seq<Field>, bits: seq<bool>, seen: set<nat>, i: nat)
    requires BitsAre(fields, bits, seen) && i < |fields|
    ensures var rank := RequiredBefore(fields, i);
      BitsAre(fields,
              if fields[i].htype == Required && rank < PB_MAX_REQUIRED_FIELDS then bits[rank := true] else bits,
              seen + {i})
  {
    forall j | 0 <= j < |fields| && j != i && fields[i].htype == Required && fields[j].htype == Required
      ensures RequiredBefore(fields, j) != RequiredBefore(fields, i)
    {
      if i < j { RequiredGrows(fields, i, j); } else { RequiredGrows(fields, j, i); }
    }
  }

  /** The required field of each rank. */
  lemma {:induction false} RankTaken(fields: seq<Field>, n: nat, rank: nat) returns (i: nat)
    requires n <= |fields| && rank < RequiredBefore(fields, n)
    ensures i < n && fields[i].htype == Required && RequiredBefore(fields, i) == rank
  {
    if fields[n - 1].htype == Required && RequiredBefore(fields, n - 1) == rank {
      i := n - 1;
    } else {
      i := RankTaken(fields, n - 1, rank);
    }
  }

  /** All bits of the required fields are set exactly when all of them have been met. */
  lemma AllBits(fields: seq<Field>, bits: seq<bool>, seen: set<nat>)
    requires BitsAre(fields, bits, seen)
    ensures var count := RequiredBefore(fields, |fields|);
      (forall r :: 0 <= r < count && r < PB_MAX_REQUIRED_FIELDS ==> bits[r]) <==> AllSeen(fields, seen)
  {
    var count := RequiredBefore(fields, |fields|);
    if AllSeen(fields, seen) {
      forall r | 0 <= r < count && r < PB_MAX_REQUIRED_FIELDS
        ensures bits[r]
      {
        var i := RankTaken(fields, |fields|, r);
      }
    }
    if forall r :: 0 <= r < count && r < PB_MAX_REQUIRED_FIELDS ==> bits[r] {
      forall i | 0 <= i < |fields| && fields[i].htype == Required && RequiredBefore(fields, i) < PB_MAX_REQUIRED_FIELDS
        ensures i in seen
      {
        RequiredGrows(fields, i, |fields|);
        assert bits[RequiredBefore(fields, i)];
      }
    }
  }

  /** The check of fields_seen at the end of pb_decode_inner. */
  method CheckRequired(fields: seq<Field>, bits: seq<bool>) returns (complete: bool)
    requires |bits| == PB_MAX_REQUIRED_FIELDS
    ensures complete == forall r :: 0 <= r < RequiredBefore(fields, |fields|) && r < PB_MAX_REQUIRED_FIELDS ==> bits[r]
  {
    var count := RequiredBefore(fields, |fields|);
    if count > PB_MAX_REQUIRED_FIELDS {
      count := PB_MAX_REQUIRED_FIELDS;
    }
    for i := 0 to count
      invariant forall r :: 0 <= r < i ==> bits[r]
    {
      if !bits[i] {
        return false;
      }
    }
    complete := true;
  }
}
