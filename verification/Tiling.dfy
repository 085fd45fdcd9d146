/**
 * The records of a completely sent flight fall into one run per message, and each run tiles its
 * message: contiguous fragments from the first byte to the last, without gap or overlap.
 */
module Tiling {
  import opened Bytes
  import opened Cbs
  import opened Fragments
  import opened Outgoing

  /** The run carries message m from `off` to its end, each record starting where the one before
    * it ended. */
  predicate Tiles(m: Message, off: nat, run: seq<Sealed>)
    decreases |run|
  {
    && run != []
    && Carries(m, off, run[0])
    && if Finishes(m, off, run[0]) then |run| == 1 else Tiles(m, off + BodyLen(run[0]), run[1..])
  }

  /** The fragment bodies of a run, one after another. */
  function Bodies(run: seq<Sealed>): seq<byte>
  {
    if run == [] then []
    else (if |run[0].payload| < HM_HEADER_LENGTH then [] else run[0].payload[HM_HEADER_LENGTH..]) + Bodies(run[1..])
  }

  function Flatten(runs: seq<seq<Sealed>>): seq<Sealed>
  {
    if runs == [] then [] else runs[0] + Flatten(runs[1..])
  }

  /** Put together, the fragments of a run are the message body; an empty message is one fragment. */
  lemma {:induction false} TilesBody(m: Message, off: nat, run: seq<Sealed>)
    requires !m.isCcs && Tiles(m, off, run)
    ensures off <= |Content(m).value.body| && Bodies(run) == Content(m).value.body[off..]
    ensures Content(m).value.body == [] ==> |run| == 1
    decreases |run|
  {
    hide Content, ToBigEndian;
    var body, r := Content(m).value.body, run[0];
    var n := BodyLen(r);
    assert r.payload[HM_HEADER_LENGTH..] == body[off..off + n];
    if Finishes(m, off, r) {
      assert run[1..] == [];
    } else {
      TilesBody(m, off + n, run[1..]);
      assert body[off..] == body[off..off + n] + body[off + n..];
    }
  }

  /** Splits a sent flight into its runs. */
  function Runs(ms: seq<Message>, w: nat, off: nat, records: seq<Sealed>): (runs: seq<seq<Sealed>>)
    requires w <= |ms| && Path(ms, w, off, records, |ms|, 0)
    ensures |runs| == |ms| - w
    decreases |records|
  {
    if records == [] then []
    else if Finishes(ms[w], off, records[0]) then [[records[0]]] + Runs(ms, w + 1, 0, records[1..])
    else
      var runs := Runs(ms, w, off + BodyLen(records[0]), records[1..]);
      [[records[0]] + runs[0]] + runs[1..]
  }

  /** Every run tiles its message, the first from `off` on. */
  predicate TilesAll(ms: seq<Message>, w: nat, off: nat, runs: seq<seq<Sealed>>)
    requires w + |runs| <= |ms|
  {
    forall i :: 0 <= i < |runs| ==> Tiles(ms[w + i], if i == 0 then off else 0, runs[i])
  }

  lemma TilesCons(ms: seq<Message>, w: nat, off: nat, run: seq<Sealed>, rest: seq<seq<Sealed>>)
    requires w + 1 + |rest| <= |ms| && Tiles(ms[w], off, run)
    requires TilesAll(ms, w + 1, 0, rest)
    ensures TilesAll(ms, w, off, [run] + rest)
  {
    hide Tiles;
    var runs := [run] + rest;
    forall i | 0 <= i < |runs| ensures Tiles(ms[w + i], if i == 0 then off else 0, runs[i]) {
      if i > 0 {
        assert runs[i] == rest[i - 1] && w + i == (w + 1) + (i - 1);
        assert Tiles(ms[(w + 1) + (i - 1)], if i - 1 == 0 then 0 else 0, rest[i - 1]);
      }
    }
  }

  lemma TilesExtend(ms: seq<Message>, w: nat, off: nat, r: Sealed, rest: seq<seq<Sealed>>)
    requires rest != [] && w + |rest| <= |ms| && Carries(ms[w], off, r) && !Finishes(ms[w], off, r)
    requires TilesAll(ms, w, off + BodyLen(r), rest)
    ensures TilesAll(ms, w, off, [[r] + rest[0]] + rest[1..])
  {
    hide Carries, Finishes;
    var runs := [[r] + rest[0]] + rest[1..];
    assert ([r] + rest[0])[1..] == rest[0];
    assert Tiles(ms[w + 0], off + BodyLen(r), rest[0]);
    hide Tiles;
    forall i | 1 <= i < |runs| ensures Tiles(ms[w + i], 0, runs[i]) {
      assert runs[i] == rest[i];
    }
  }

  /** Every message of the flight is tiled, and nothing else was sent. */
  lemma {:induction false} FlightTiled(ms: seq<Message>, w: nat, off: nat, records: seq<Sealed>)
    requires w <= |ms| && Path(ms, w, off, records, |ms|, 0)
    ensures Flatten(Runs(ms, w, off, records)) == records
    ensures TilesAll(ms, w, off, Runs(ms, w, off, records))
    decreases |records|
  {
    hide Carries, Finishes, TilesAll;
    if records == [] {
      NoRuns(ms, w, off);
    } else {
      var r, tail := records[0], records[1..];
      assert records == [r] + tail;
      if Finishes(ms[w], off, r) {
        FlightTiled(ms, w + 1, 0, tail);
        TilesCons(ms, w, off, [r], Runs(ms, w + 1, 0, tail));
        FlattenCons([r], Runs(ms, w + 1, 0, tail));
      } else {
        FlightTiled(ms, w, off + BodyLen(r), tail);
        var rest := Runs(ms, w, off + BodyLen(r), tail);
        TilesExtend(ms, w, off, r, rest);
        FlattenCons([r] + rest[0], rest[1..]);
        FlattenCons(rest[0], rest[1..]);
        assert rest == [rest[0]] + rest[1..];
        assert [r] + rest[0] + Flatten(rest[1..]) == [r] + (rest[0] + Flatten(rest[1..]));
      }
    }
  }

  lemma NoRuns(ms: seq<Message>, w: nat, off: nat)
    requires w <= |ms|
    ensures TilesAll(ms, w, off, [])
  {
  }

  lemma FlattenCons(run: seq<Sealed>, rest: seq<seq<Sealed>>)
    ensures Flatten([run] + rest) == run + Flatten(rest)
  {
    assert ([run] + rest)[1..] == rest;
  }
}
