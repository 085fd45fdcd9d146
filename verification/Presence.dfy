/**
 * Which proto3 fields are left out (pb_check_proto3_default_value in pb_encode.c): exactly those whose
 * value the decoder starts from, unless the field is of a kind that is always sent.
 */
module Presence {
  import opened Bytes
  import opened Schema
  import opened Wire
  import opened RoundTrip

  /** Fixed-length bytes, and submessages with a required or an always sent member. */
  predicate AlwaysSent(f: Field)
    decreases f, 0
  {
    if f.ltype.SubmessageT? then exists g :: g in f.ltype.fields && (g.rule.Required? || (g.rule.Singular? && AlwaysSent(g)))
    else f.ltype.FixedBytesT? && f.size > 0
  }

  /** The value of a field is left out if and only if it is the default and the field is not always sent. */
  lemma {:induction false} LeftOutIff(f: Field, v: Value)
    requires WellFormedField(f) && TypedValue(f, v) && (f.rule.Singular? || v.Sub?)
    ensures IsDefault(f, v) <==> Stored(f, v) == DefaultValue(f) && !AlwaysSent(f)
    decreases v, 0
  {
    match v
    case Sub(slots) => AllLeftOutIff(f.ltype.fields, slots);
    case _ => assert TypedValue(f, f.dflt);
  }

  lemma {:induction false} MemberLeftOutIff(f: Field, s: Slot)
    requires WellFormedField(f) && TypedSlot(f, s)
    ensures IsDefaultSlot(f, s) <==> StoredSlot(f, s) == DefaultSlot(f) && !(f.rule.Required? || (f.rule.Singular? && AlwaysSent(f)))
    decreases s, 1
  {
    if s.Plain? && f.rule.Singular? { LeftOutIff(f, s.v); }
  }

  lemma {:induction false} AllLeftOutIff(fields: seq<Field>, slots: seq<Slot>)
    requires WellFormed(fields) && TypedMessage(fields, slots)
    ensures AllDefault(fields, slots) <==>
            StoredAll(fields, slots) == Defaults(fields) && !exists g :: g in fields && (g.rule.Required? || (g.rule.Singular? && AlwaysSent(g)))
    decreases slots, 2
  {
    hide IsDefaultSlot, StoredSlot, DefaultSlot, AlwaysSent, TypedSlot, WellFormedField;
    forall i | 0 <= i < |slots|
      ensures IsDefaultSlot(fields[i], slots[i]) <==>
              StoredSlot(fields[i], slots[i]) == DefaultSlot(fields[i])
              && !(fields[i].rule.Required? || (fields[i].rule.Singular? && AlwaysSent(fields[i])))
    {
      MemberLeftOutIff(fields[i], slots[i]);
    }
  }

  /** An empty input is a message exactly if nothing is required, and leaves every member at its default:
    * the descriptor's value, no entries, no union member. */
  lemma EmptyMessage(fields: seq<Field>)
    ensures DecodeMessage(fields, Defaults(fields), []) == if RequiredBefore(fields, |fields|) == 0 then Some(Defaults(fields)) else None
    ensures forall i :: 0 <= i < |fields| && !fields[i].ltype.SubmessageT? ==>
              var f := fields[i];
              Defaults(fields)[i] == if f.rule.Repeated? then Items([]) else if f.rule.Oneof? then Unchosen
                                     else if f.rule.Optional? then Flagged(false, f.dflt) else Plain(f.dflt)
  {
    hide DefaultSlot;
    if RequiredBefore(fields, |fields|) > 0 && AllRequiredSeen(fields, {}) { WasSeen(fields, {}, 0); }
    forall i | 0 <= i < |fields| && !fields[i].ltype.SubmessageT?
      ensures var f := fields[i];
              Defaults(fields)[i] == if f.rule.Repeated? then Items([]) else if f.rule.Oneof? then Unchosen
                                     else if f.rule.Optional? then Flagged(false, f.dflt) else Plain(f.dflt)
    {
      LeafDefault(fields[i]);
    }
  }

  lemma WasSeen(fields: seq<Field>, seen: set<nat>, k: nat)
    requires AllRequiredSeen(fields, seen) && k < RequiredBefore(fields, |fields|) && k < 64
    ensures k in seen
  {
  }

  lemma LeafDefault(f: Field)
    requires !f.ltype.SubmessageT?
    ensures DefaultSlot(f) == if f.rule.Repeated? then Items([]) else if f.rule.Oneof? then Unchosen
                              else if f.rule.Optional? then Flagged(false, f.dflt) else Plain(f.dflt)
  {
  }
}
