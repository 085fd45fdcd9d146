/**
 * Choosing a cipher from preference lists with equal-preference groups (ssl3_choose_cipher in
 * handshake_server.cc; ssl_cipher_preference_list_st in ssl/internal.h).
 */
module CipherChoice {
  import opened Bytes

  /** Whether a cipher suits the version and the server's configuration. */
  type Compatible = nat -> bool

  /** sk_SSL_CIPHER_find: a cipher's position in a list. */
  function IndexOf(s: seq<nat>, c: nat): (r: Option<nat>)
    ensures r.Some? ==> r.value < |s| && s[r.value] == c
    ensures r.None? <==> c !in s
  {
    if s == [] then None
    else if s[0] == c then Some(0)
    else
      var k :- IndexOf(s[1..], c);
      Some(k + 1)
  }

  /** Flags as in_group_flags has them: 1 for every member of a group but its last. The last cipher
    * of the list ends its group. */
  predicate WellFormedGroups(prio: seq<nat>, flags: seq<bool>)
  {
    |flags| == |prio| && (prio != [] ==> !flags[|flags| - 1])
  }

  /** Position i ends a group. Without flags every cipher is a group of its own. */
  predicate EndsGroup(flags: seq<bool>, i: nat)
  {
    i < |flags| ==> !flags[i]
  }

  /** The first position of the group that holds i. */
  function GroupStart(flags: seq<bool>, i: nat): (g: nat)
    ensures g <= i
    ensures g > 0 ==> EndsGroup(flags, g - 1)
    ensures forall k :: g <= k < i ==> !EndsGroup(flags, k)
  {
    if i == 0 || EndsGroup(flags, i - 1) then i else GroupStart(flags, i - 1)
  }

  /** i and j are in one group. */
  predicate SameGroup(flags: seq<bool>, i: nat, j: nat)
  {
    GroupStart(flags, i) == GroupStart(flags, j)
  }

  /** A cipher both sides allow and the configuration supports. */
  predicate Usable(prio: seq<nat>, allow: seq<nat>, ok: Compatible, i: nat)
    requires i < |prio|
  {
    ok(prio[i]) && prio[i] in allow
  }

  /** The result the documentation promises: some usable cipher in the first group that has one, and
    * of that group's usable ciphers the one the other side lists first. */
  ghost predicate Best(prio: seq<nat>, flags: seq<bool>, allow: seq<nat>, ok: Compatible, c: nat)
  {
    exists i :: 0 <= i < |prio| && BestAt(prio, flags, allow, ok, i) && c == prio[i]
  }

  predicate BestAt(prio: seq<nat>, flags: seq<bool>, allow: seq<nat>, ok: Compatible, i: nat)
    requires i < |prio|
  {
    && Usable(prio, allow, ok, i)
    && forall j :: 0 <= j < |prio| && Usable(prio, allow, ok, j) ==>
        if SameGroup(flags, i, j) then IndexOf(allow, prio[i]).value <= IndexOf(allow, prio[j]).value else i < j
  }

  /** i lies in a last group that is never ended: what well-formed flags rule out. */
  predicate InOpenGroup(prio: seq<nat>, flags: seq<bool>, i: nat)
    requires i < |prio|
  {
    !EndsGroup(flags, |prio| - 1) && SameGroup(flags, i, |prio| - 1)
  }

  /** Groups end where they say: what comes later is in another group. */
  lemma LaterGroup(flags: seq<bool>, i: nat, j: nat)
    requires i < j && EndsGroup(flags, i)
    ensures !SameGroup(flags, i, j) && GroupStart(flags, i) <= i < GroupStart(flags, j)
  {
  }

  lemma ChosenIsBest(prio: seq<nat>, flags: seq<bool>, allow: seq<nat>, ok: Compatible, best: nat, i: nat)
    requires best <= i < |prio| && Usable(prio, allow, ok, best) && EndsGroup(flags, i) && SameGroup(flags, best, i)
    requires forall j :: 0 <= j <= i && Usable(prio, allow, ok, j) ==>
               SameGroup(flags, j, i) && IndexOf(allow, prio[best]).value <= IndexOf(allow, prio[j]).value
    ensures BestAt(prio, flags, allow, ok, best) && !InOpenGroup(prio, flags, best)
  {
    hide IndexOf, GroupStart, EndsGroup;
    forall j | i < j < |prio| ensures !SameGroup(flags, best, j) { LaterGroup(flags, i, j); }
  }

  /** ssl3_choose_cipher after the lists have been parsed: prio with its group flags ([] for none),
    * allow, and the compatibility masks. */
  method ChooseCipher(prio: seq<nat>, flags: seq<bool>, allow: seq<nat>, ok: Compatible) returns (choice: Option<nat>)
    requires flags == [] || |flags| == |prio|
    ensures choice.Some? ==> Best(prio, flags, allow, ok, choice.value)
    ensures choice.None? <==> forall i :: 0 <= i < |prio| && Usable(prio, allow, ok, i) ==> InOpenGroup(prio, flags, i)
  {
    hide IndexOf, GroupStart;
    var groupMin := -1;
    ghost var best := -1;  // where in prio the cipher at groupMin was found
    var i := 0;
    while i < |prio|
      invariant i <= |prio|
      invariant groupMin == -1 ==> forall j :: 0 <= j < i ==> !Usable(prio, allow, ok, j)
      invariant groupMin != -1 ==> 0 <= groupMin && GroupOpen(prio, flags, allow, ok, groupMin, best, i)
    {
      var c := prio[i];
      var index := IndexOf(allow, c);
      if groupMin != -1 { StillOpen(prio, flags, allow, ok, groupMin, best, i); }
      if ok(c) && index.Some? {
        var cipherIndex := index.value;
        if flags != [] && flags[i] {
          if groupMin == -1 || groupMin > cipherIndex {
            groupMin := cipherIndex;
            best := i;
          }
        } else {
          if groupMin != -1 && groupMin < cipherIndex {
            cipherIndex := groupMin;
          } else {
            best := i;
          }
          ChosenIsBest(prio, flags, allow, ok, best, i);
          return Some(allow[cipherIndex]);
        }
      }
      if flags != [] && !flags[i] && groupMin != -1 {
        ChosenIsBest(prio, flags, allow, ok, best, i);
        return Some(allow[groupMin]);
      }
      i := i + 1;
    }
    return None;
  }

  /** Before position i a group is open in which groupMin, found at `best`, is the least index so
    * far; nothing usable came before that group. */
  predicate GroupOpen(prio: seq<nat>, flags: seq<bool>, allow: seq<nat>, ok: Compatible, groupMin: nat, best: int, i: nat)
    requires i <= |prio|
  {
    && 0 <= best < i && flags != [] && !EndsGroup(flags, i - 1)
    && Usable(prio, allow, ok, best) && IndexOf(allow, prio[best]) == Some(groupMin)
    && SameGroup(flags, best, i - 1)
    && forall j :: 0 <= j < i && Usable(prio, allow, ok, j) ==>
        SameGroup(flags, j, i - 1) && groupMin <= IndexOf(allow, prio[j]).value
  }

  /** The open group takes in the next position. */
  lemma StillOpen(prio: seq<nat>, flags: seq<bool>, allow: seq<nat>, ok: Compatible, groupMin: nat, best: int, i: nat)
    requires i < |prio| && GroupOpen(prio, flags, allow, ok, groupMin, best, i)
    ensures SameGroup(flags, i - 1, i)
  {
    hide IndexOf;
  }

  // ---------------------------------------------------------------- what the choice is

  /** With well-formed flags there is no choice exactly when there is no usable cipher. */
  lemma NoneMeansNoUsable(prio: seq<nat>, flags: seq<bool>, allow: seq<nat>, ok: Compatible)
    requires flags == [] || WellFormedGroups(prio, flags)
    ensures (forall i :: 0 <= i < |prio| && Usable(prio, allow, ok, i) ==> InOpenGroup(prio, flags, i)) <==>
            forall i :: 0 <= i < |prio| ==> !Usable(prio, allow, ok, i)
  {
    hide IndexOf, GroupStart;
  }

  /** The promise leaves no freedom: at most one cipher meets it. */
  lemma BestIsUnique(prio: seq<nat>, flags: seq<bool>, allow: seq<nat>, ok: Compatible, c: nat, d: nat)
    requires Best(prio, flags, allow, ok, c) && Best(prio, flags, allow, ok, d)
    ensures c == d
  {
    hide GroupStart;
    var i :| 0 <= i < |prio| && BestAt(prio, flags, allow, ok, i) && c == prio[i];
    var j :| 0 <= j < |prio| && BestAt(prio, flags, allow, ok, j) && d == prio[j];
    if SameGroup(flags, i, j) {
      assert IndexOf(allow, c).value == IndexOf(allow, d).value;
    }
  }

  /** Without groups it is the first usable cipher of the list that has priority. */
  lemma UngroupedIsFirst(prio: seq<nat>, allow: seq<nat>, ok: Compatible, c: nat)
    requires Best(prio, [], allow, ok, c)
    ensures exists i :: 0 <= i < |prio| && c == prio[i] && Usable(prio, allow, ok, i) && forall j :: 0 <= j < i ==> !Usable(prio, allow, ok, j)
  {
    hide IndexOf;
    var i :| 0 <= i < |prio| && BestAt(prio, [], allow, ok, i) && c == prio[i];
    forall j | 0 <= j < i ensures !Usable(prio, allow, ok, j) {
      assert GroupStart([], i) == i && GroupStart([], j) == j;
    }
  }
}
