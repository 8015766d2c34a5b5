/** The field iterator of pb_common.c. */
module ProtoIterator {
  import opened ProtoDecode
  import opened ProtoSchema

  /** How many words a field takes in the descriptor; 1, 2, 4 or 8. */
  type Words = seq<nat>

  ghost function Before(words: Words, i: nat): (n: nat)
    requires i <= |words|
  {
    if i == 0 then 0 else Before(words, i - 1) + words[i - 1]
  }

  function SubmessagesBefore(fields: seq<Field>, i: nat): (n: nat)
    requires i <= |fields|
  {
    if i == 0 then 0 else SubmessagesBefore(fields, i - 1) + (if fields[i - 1].ltype.TMessage? then 1 else 0)
  }

  ghost predicate Ascending(fields: seq<Field>) {
    (forall i :: 0 <= i < |fields| ==> 0 < fields[i].tag)
      && forall i, j :: 0 <= i < j < |fields| ==> fields[i].tag < fields[j].tag
  }

  class FieldIter {
    const fields: seq<Field>
    const words: Words
    const largestTag: nat
    var index: nat
    var fieldInfoIndex: nat
    var submessageIndex: nat
    var requiredFieldIndex: nat
    var tag: nat                  // of the field that was loaded last

    /** The four positions belong together. */
    ghost predicate Placed()
      reads `index, `fieldInfoIndex, `submessageIndex, `requiredFieldIndex
    {
      && |words| == |fields| && Ascending(fields)
      && largestTag == (if fields == [] then 0 else fields[|fields| - 1].tag)
      && (if fields == [] then index == 0 else index < |fields|)
      && fieldInfoIndex == Before(words, index) && submessageIndex == SubmessagesBefore(fields, index)
      && requiredFieldIndex == RequiredBefore(fields, index)
    }

    ghost predicate Valid()
      reads this
    {
      Placed() && tag == (if fields == [] then 0 else fields[index].tag)
    }

    /** pb_field_iter_begin. */
    constructor (fields: seq<Field>, words: Words)
      requires |words| == |fields| && Ascending(fields)
      ensures Valid() && this.fields == fields && index == 0
    {
      this.fields, this.words := fields, words;
      largestTag := if fields == [] then 0 else fields[|fields| - 1].tag;
      index, fieldInfoIndex, submessageIndex, requiredFieldIndex := 0, 0, 0, 0;
      tag := if fields == [] then 0 else fields[0].tag;
    }

    /** The values load_descriptor_values takes from the descriptor. */
    method Load()
      requires Placed() && fields != []
      modifies this`tag
      ensures Valid()
    {
      tag := fields[index].tag;
    }

    /** advance_iterator; an index behind the last field restarts. */
    method Advance()
      requires fields != []
      requires Placed()
        || (index >= |fields| && |words| == |fields| && Ascending(fields) && largestTag == fields[|fields| - 1].tag)
      modifies this`index, this`fieldInfoIndex, this`submessageIndex, this`requiredFieldIndex
      ensures Placed() && index == if old(index) + 1 < |fields| then old(index) + 1 else 0
    {
      index := index + 1;
      if index >= |fields| {
        index, fieldInfoIndex, submessageIndex, requiredFieldIndex := 0, 0, 0, 0;
      } else {
        fieldInfoIndex := fieldInfoIndex + words[index - 1];
        requiredFieldIndex := requiredFieldIndex + if fields[index - 1].htype == Required then 1 else 0;
        submessageIndex := submessageIndex + if fields[index - 1].ltype.TMessage? then 1 else 0;
      }
    }

    /** pb_field_iter_next. */
    method Next() returns (more: bool)
      requires Valid() && fields != []
      modifies this
      ensures Valid() && more == (old(index) + 1 < |fields|) && index == if more then old(index) + 1 else 0
    {
      Advance();
      Load();
      more := index != 0;
    }

    /** pb_field_iter_find: from wherever the iterator is, it finds the field with the tag,
        or comes back to where it was when there is none. */
    method Find(wanted: nat) returns (found: bool)
      requires Valid() && wanted > 0
      modifies this
      ensures Valid() && found == exists i :: 0 <= i < |fields| && fields[i].tag == wanted
      ensures found ==> index < |fields| && fields[index].tag == wanted
      ensures !found ==> index == old(index)
    {
      hide Before, SubmessagesBefore, RequiredBefore;
      if tag == wanted {
        return true;
      }
      if wanted > largestTag {
        return false;
      }
      var start := index;
      ghost var wrapped := false;
      if wanted < tag {
        index := |fields|;
        wrapped := true;
      }
      while true
        invariant fields != [] && start < |fields| && fields[start].tag != wanted
        invariant if wrapped && index == |fields|
          then |words| == |fields| && Ascending(fields) && largestTag == fields[|fields| - 1].tag
                  else Placed()
        invariant wrapped ==> forall j :: start < j < |fields| ==> fields[j].tag != wanted
        invariant wrapped && index < |fields| ==>
          index < start && forall j :: 0 <= j <= index ==> fields[j].tag != wanted
        invariant !wrapped ==> start <= index < |fields| && forall j :: start < j <= index ==> fields[j].tag != wanted
        decreases if !wrapped then 2 * |fields| - index else if index == |fields| then |fields| else start - index
      {
        if !wrapped && index + 1 == |fields| {
          wrapped := true;
        }
        Advance();
        var low := fields[index].tag % 64;
        if low == wanted % 64 {
          Load();
          if tag == wanted {
            return true;
          }
        }
        if index == start {
          break;
        }
      }
      Load();
      found := false;
    }
  }
}
