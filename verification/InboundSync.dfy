/**
  Bringing the stored inbounds of a configuration profile in line with its configuration. A row
  whose tag is gone or whose type changed is deleted, missing inbounds are created under a new
  UUID, and only a run that deletes and creates nothing updates the other fields.
 */
module InboundSync {
  import opened Wrappers

  /** UUIDs are numbered in the order they were generated; only their being different is used. */
  type Uuid = nat

  /** `raw` is the raw inbound up to deep equality. */
  datatype Inbound = Inbound(tag: string, kind: string, security: Option<string>, network: Option<string>,
    port: Option<nat>, raw: string)

  datatype Row = Row(uuid: Uuid, inbound: Inbound)

  /** The rows of the profile, and the first UUID not generated yet. */
  datatype Stored = Stored(rows: seq<Row>, next: Uuid)

  predicate UniqueTags(inbounds: seq<Inbound>) {
    forall i, j :: 0 <= i < j < |inbounds| ==> inbounds[i].tag != inbounds[j].tag
  }

  predicate WellFormed(s: Stored) {
    && (forall i, j :: 0 <= i < j < |s.rows| ==>
        s.rows[i].inbound.tag != s.rows[j].inbound.tag && s.rows[i].uuid != s.rows[j].uuid)
    && (forall i :: 0 <= i < |s.rows| ==> s.rows[i].uuid < s.next)
  }

  // ----- the three lists

  function FindInbound(inbounds: seq<Inbound>, tag: string): (r: Option<Inbound>)
    ensures r.Some? ==> r.value in inbounds && r.value.tag == tag
    ensures r.None? ==> forall w :: w in inbounds ==> w.tag != tag
  {
    if inbounds == [] then None
    else if inbounds[0].tag == tag then Some(inbounds[0])
    else FindInbound(inbounds[1..], tag)
  }

  function FindRow(rows: seq<Row>, tag: string): (r: Option<Row>)
    ensures r.Some? ==> r.value in rows && r.value.inbound.tag == tag
    ensures r.None? ==> forall row :: row in rows ==> row.inbound.tag != tag
  {
    if rows == [] then None
    else if rows[0].inbound.tag == tag then Some(rows[0])
    else FindRow(rows[1..], tag)
  }

  predicate Stale(row: Row, wanted: seq<Inbound>) {
    var found := FindInbound(wanted, row.inbound.tag);
    found.None? || found.value.kind != row.inbound.kind
  }

  predicate Missing(inbound: Inbound, rows: seq<Row>) {
    var found := FindRow(rows, inbound.tag);
    found.None? || found.value.inbound.kind != inbound.kind
  }

  predicate Changed(inbound: Inbound, rows: seq<Row>) {
    var found := FindRow(rows, inbound.tag);
    found.Some? && found.value.inbound != inbound
  }

  function ToRemove(rows: seq<Row>, wanted: seq<Inbound>): (r: seq<Row>)
    ensures forall row :: row in r <==> row in rows && Stale(row, wanted)
  {
    if rows == [] then []
    else
      var front, last := ToRemove(rows[..|rows| - 1], wanted), rows[|rows| - 1];
      if Stale(last, wanted) then front + [last] else front
  }

  function ToAdd(wanted: seq<Inbound>, rows: seq<Row>): (r: seq<Inbound>)
    ensures forall w :: w in r <==> w in wanted && Missing(w, rows)
  {
    if wanted == [] then []
    else
      var front, last := ToAdd(wanted[..|wanted| - 1], rows), wanted[|wanted| - 1];
      if Missing(last, rows) then front + [last] else front
  }

  /** The found rows with the fields of the configuration filled in. */
  function ToUpdate(wanted: seq<Inbound>, rows: seq<Row>): seq<Row> {
    if wanted == [] then []
    else
      var front, last := ToUpdate(wanted[..|wanted| - 1], rows), wanted[|wanted| - 1];
      if Changed(last, rows) then front + [Row(FindRow(rows, last.tag).value.uuid, last)] else front
  }

  // ----- the statements on the table

  function Deleted(rows: seq<Row>, gone: seq<Row>): (r: seq<Row>)
    ensures forall row :: row in r <==> row in rows && !exists g :: g in gone && g.uuid == row.uuid
  {
    if rows == [] then []
    else
      var front, last := Deleted(rows[..|rows| - 1], gone), rows[|rows| - 1];
      if exists g :: g in gone && g.uuid == last.uuid then front else front + [last]
  }

  function Created(inbounds: seq<Inbound>, next: Uuid): (r: seq<Row>)
    ensures |r| == |inbounds|
    ensures forall i :: 0 <= i < |r| ==> r[i] == Row(next + i, inbounds[i])
  {
    seq(|inbounds|, i requires 0 <= i < |inbounds| => Row(next + i, inbounds[i]))
  }

  function Updated(rows: seq<Row>, update: Row): (r: seq<Row>)
    ensures |r| == |rows|
    ensures forall i :: 0 <= i < |r| ==> r[i] == if rows[i].uuid == update.uuid then update else rows[i]
  {
    seq(|rows|, i requires 0 <= i < |rows| => if rows[i].uuid == update.uuid then update else rows[i])
  }

  // ----- what one run leaves

  predicate NothingMoves(s: Stored, wanted: seq<Inbound>) {
    ToRemove(s.rows, wanted) == [] && ToAdd(wanted, s.rows) == []
  }

  /** The row with the fields its tag has in the configuration. */
  function Refreshed(row: Row, wanted: seq<Inbound>): Row {
    var found := FindInbound(wanted, row.inbound.tag);
    if found.Some? then Row(row.uuid, found.value) else row
  }

  function Synced(s: Stored, wanted: seq<Inbound>): Stored {
    if NothingMoves(s, wanted) then
      Stored(seq(|s.rows|, i requires 0 <= i < |s.rows| => Refreshed(s.rows[i], wanted)), s.next)
    else
      var added := ToAdd(wanted, s.rows);
      Stored(Deleted(s.rows, ToRemove(s.rows, wanted)) + Created(added, s.next), s.next + |added|)
  }

  class InboundTable {
    var rows: seq<Row>
    var next: Uuid
    /** The statements sent to the database so far. */
    var statements: nat

    function Contents(): Stored
      reads this
    {
      Stored(rows, next)
    }

    method UpdateRows(updates: seq<Row>)
      modifies this`rows, this`statements
      ensures statements == old(statements) + |updates| && |rows| == |old(rows)|
      ensures forall k :: 0 <= k < |rows| ==> rows[k] == Latest(updates, old(rows)[k])
    {
      for i := 0 to |updates|
        invariant statements == old(statements) + i && |rows| == |old(rows)|
        invariant forall k :: 0 <= k < |rows| ==> rows[k] == Latest(updates[..i], old(rows)[k])
      {
        assert updates[..i + 1][..i] == updates[..i];
        rows, statements := Updated(rows, updates[i]), statements + 1;
      }
      assert updates[..|updates|] == updates;
    }

    method SyncInbounds(wanted: seq<Inbound>)
      requires WellFormed(Contents()) && UniqueTags(wanted)
      modifies this
      ensures Contents() == Synced(old(Contents()), wanted)
      ensures statements == old(statements) <==> old(NothingMoves(Contents(), wanted) && ToUpdate(wanted, rows) == [])
    {
      var existing := rows;
      var inboundsToRemove := ToRemove(existing, wanted);
      var inboundsToAdd := ToAdd(wanted, existing);
      if |inboundsToRemove| > 0 {
        rows, statements := Deleted(rows, inboundsToRemove), statements + 1;
      }
      if |inboundsToAdd| > 0 {
        rows, next, statements := rows + Created(inboundsToAdd, next), next + |inboundsToAdd|, statements + 1;
      }
      if |inboundsToAdd| == 0 && |inboundsToRemove| == 0 {
        UpdateRows(ToUpdate(wanted, existing));
        forall k | 0 <= k < |rows|
          ensures rows[k] == Refreshed(existing[k], wanted)
        {
          UpdatesRefresh(Stored(existing, next), wanted, k);
        }
      } else {
        DeletingNothing(existing);
      }
    }
  }

  // ----- the updates one after the other

  /** What a row is after the updates. */
  function Latest(updates: seq<Row>, row: Row): (r: Row)
    ensures r.uuid == row.uuid
  {
    if updates == [] then row
    else if updates[|updates| - 1].uuid == row.uuid then updates[|updates| - 1]
    else Latest(updates[..|updates| - 1], row)
  }

  lemma FindRowFinds(s: Stored, k: nat)
    requires WellFormed(s) && k < |s.rows|
    ensures FindRow(s.rows, s.rows[k].inbound.tag) == Some(s.rows[k])
  {
  }

  lemma FindInboundFinds(wanted: seq<Inbound>, w: Inbound)
    requires UniqueTags(wanted) && w in wanted
    ensures FindInbound(wanted, w.tag) == Some(w)
  {
  }

  lemma {:induction false} UpdatesRefresh(s: Stored, wanted: seq<Inbound>, k: nat)
    requires WellFormed(s) && UniqueTags(wanted) && k < |s.rows|
    ensures Latest(ToUpdate(wanted, s.rows), s.rows[k]) == Refreshed(s.rows[k], wanted)
  {
    if wanted != [] {
      var front, last := wanted[..|wanted| - 1], wanted[|wanted| - 1];
      UpdatesRefresh(s, front, k);
      FindRowFinds(s, k);
      if last.tag == s.rows[k].inbound.tag {
        FindInboundFinds(wanted, last);
      }
    }
  }

  lemma DeletingNothing(rows: seq<Row>)
    ensures Deleted(rows, []) == rows
  {
  }

  // ----- convergence

  function PairOf(inbound: Inbound): (string, string) {
    (inbound.tag, inbound.kind)
  }

  ghost function Pairs(inbounds: set<Inbound>): set<(string, string)> {
    set w | w in inbounds :: PairOf(w)
  }

  ghost function Stores(rows: seq<Row>): set<Inbound> {
    set row | row in rows :: row.inbound
  }

  ghost function Wants(wanted: seq<Inbound>): set<Inbound> {
    set w | w in wanted
  }

  /** The stored (tag, type) pairs are those of the configuration. */
  ghost predicate SamePairs(rows: seq<Row>, wanted: seq<Inbound>) {
    Pairs(Stores(rows)) == Pairs(Wants(wanted))
  }

  /** Every compared field of every inbound is stored as configured, and nothing else is stored. */
  ghost predicate Mirrors(rows: seq<Row>, wanted: seq<Inbound>) {
    Stores(rows) == Wants(wanted)
  }

  ghost predicate IsWanted(row: Row, wanted: seq<Inbound>) {
    PairOf(row.inbound) in Pairs(Wants(wanted))
  }

  ghost predicate IsStored(w: Inbound, rows: seq<Row>) {
    PairOf(w) in Pairs(Stores(rows))
  }

  lemma StaleMeans(row: Row, wanted: seq<Inbound>)
    requires UniqueTags(wanted)
    ensures Stale(row, wanted) <==> !IsWanted(row, wanted)
  {
    forall w | w in wanted && w.tag == row.inbound.tag
      ensures FindInbound(wanted, row.inbound.tag) == Some(w)
    {
      FindInboundFinds(wanted, w);
    }
    var found := FindInbound(wanted, row.inbound.tag);
    assert found.Some? ==> found.value in Wants(wanted);
  }

  lemma MissingMeans(s: Stored, w: Inbound)
    requires WellFormed(s)
    ensures Missing(w, s.rows) <==> !IsStored(w, s.rows)
  {
    forall k | 0 <= k < |s.rows| && s.rows[k].inbound.tag == w.tag
      ensures FindRow(s.rows, w.tag) == Some(s.rows[k])
    {
      FindRowFinds(s, k);
    }
    var found := FindRow(s.rows, w.tag);
    assert found.Some? ==> found.value.inbound in Stores(s.rows);
  }

  lemma EmptyMeans<T>(s: seq<T>)
    ensures s == [] <==> forall e :: e !in s
  {
    assert s != [] ==> s[0] in s;
  }

  /** Nothing is deleted or created exactly when the pairs agree already. */
  lemma NothingMovesMeans(s: Stored, wanted: seq<Inbound>)
    requires WellFormed(s) && UniqueTags(wanted)
    ensures NothingMoves(s, wanted) <==> SamePairs(s.rows, wanted)
  {
    forall row | row in s.rows
      ensures row in ToRemove(s.rows, wanted) <==> !IsWanted(row, wanted)
    {
      StaleMeans(row, wanted);
    }
    forall w | w in wanted
      ensures w in ToAdd(wanted, s.rows) <==> !IsStored(w, s.rows)
    {
      MissingMeans(s, w);
    }
    EmptyMeans(ToRemove(s.rows, wanted));
    EmptyMeans(ToAdd(wanted, s.rows));
    PairsCovered(s.rows, wanted);
  }

  lemma PairsCovered(rows: seq<Row>, wanted: seq<Inbound>)
    ensures SamePairs(rows, wanted) <==>
      (forall row :: row in rows ==> IsWanted(row, wanted)) && (forall w :: w in wanted ==> IsStored(w, rows))
  {
    if (forall row :: row in rows ==> IsWanted(row, wanted)) && (forall w :: w in wanted ==> IsStored(w, rows)) {
      assert forall i :: i in Stores(rows) ==> PairOf(i) in Pairs(Wants(wanted));
      assert forall i :: i in Wants(wanted) ==> PairOf(i) in Pairs(Stores(rows));
    } else if row :| row in rows && !IsWanted(row, wanted) {
      assert row.inbound in Stores(rows);
    } else {
      var w :| w in wanted && !IsStored(w, rows);
      assert w in Wants(wanted);
    }
  }

  // a run that only updates

  lemma RefreshedFits(row: Row, wanted: seq<Inbound>)
    requires UniqueTags(wanted) && IsWanted(row, wanted)
    ensures Refreshed(row, wanted).uuid == row.uuid && PairOf(Refreshed(row, wanted).inbound) == PairOf(row.inbound)
    ensures Refreshed(row, wanted).inbound in wanted
  {
    StaleMeans(row, wanted);
  }

  lemma UpdatingRun(s: Stored, wanted: seq<Inbound>)
    requires WellFormed(s) && UniqueTags(wanted) && SamePairs(s.rows, wanted)
    ensures |Synced(s, wanted).rows| == |s.rows| && Synced(s, wanted).next == s.next
    ensures forall k :: 0 <= k < |s.rows| ==> Synced(s, wanted).rows[k] == Refreshed(s.rows[k], wanted)
    ensures forall k :: 0 <= k < |s.rows| ==> IsWanted(s.rows[k], wanted)
  {
    NothingMovesMeans(s, wanted);
    PairsCovered(s.rows, wanted);
  }

  lemma UpdatingKeepsShape(s: Stored, wanted: seq<Inbound>)
    requires WellFormed(s) && UniqueTags(wanted) && SamePairs(s.rows, wanted)
    ensures WellFormed(Synced(s, wanted))
    ensures forall row :: row in Synced(s, wanted).rows ==> row.inbound in wanted
  {
    UpdatingRun(s, wanted);
    var t := Synced(s, wanted);
    forall k | 0 <= k < |s.rows|
      ensures t.rows[k].uuid == s.rows[k].uuid && t.rows[k].inbound.tag == s.rows[k].inbound.tag
                && t.rows[k].inbound in wanted
    {
      RefreshedFits(s.rows[k], wanted);
    }
  }

  /** A run on matching pairs leaves every compared field as configured. */
  lemma SecondRun(s: Stored, wanted: seq<Inbound>)
    requires WellFormed(s) && UniqueTags(wanted) && SamePairs(s.rows, wanted)
    ensures WellFormed(Synced(s, wanted)) && Mirrors(Synced(s, wanted).rows, wanted)
  {
    UpdatingKeepsShape(s, wanted);
    PairsCovered(s.rows, wanted);
    forall w | w in wanted
      ensures w in Stores(Synced(s, wanted).rows)
    {
      UpdatedHolds(s, wanted, w);
    }
  }

  lemma UpdatedHolds(s: Stored, wanted: seq<Inbound>, w: Inbound)
    requires WellFormed(s) && UniqueTags(wanted) && SamePairs(s.rows, wanted) && w in wanted
    ensures w in Stores(Synced(s, wanted).rows)
  {
    UpdatingRun(s, wanted);
    PairsCovered(s.rows, wanted);
    assert IsStored(w, s.rows);
    var k :| 0 <= k < |s.rows| && PairOf(s.rows[k].inbound) == PairOf(w);
    FindInboundFinds(wanted, w);
    var t := Synced(s, wanted);
    assert t.rows[k] in t.rows && t.rows[k].inbound == w;
  }

  lemma {:induction false} NothingToUpdate(s: Stored, wanted: seq<Inbound>)
    requires WellFormed(s) && forall w :: w in wanted ==> w in Stores(s.rows)
    ensures ToUpdate(wanted, s.rows) == []
  {
    if wanted != [] {
      var front, last := wanted[..|wanted| - 1], wanted[|wanted| - 1];
      NothingToUpdate(s, front);
      assert last in wanted;
      var k :| 0 <= k < |s.rows| && s.rows[k].inbound == last;
      FindRowFinds(s, k);
    }
  }

  /** A run on a table that is as configured changes no row and sends no statement. */
  lemma LaterRun(s: Stored, wanted: seq<Inbound>)
    requires WellFormed(s) && UniqueTags(wanted) && Mirrors(s.rows, wanted)
    ensures Synced(s, wanted) == s
    ensures NothingMoves(s, wanted) && ToUpdate(wanted, s.rows) == []
  {
    NothingMovesMeans(s, wanted);
    assert forall w :: w in wanted ==> w in Wants(wanted);
    NothingToUpdate(s, wanted);
    UpdatingRun(s, wanted);
    forall k | 0 <= k < |s.rows|
      ensures Refreshed(s.rows[k], wanted) == s.rows[k]
    {
      assert s.rows[k].inbound in Stores(s.rows);
      FindInboundFinds(wanted, s.rows[k].inbound);
    }
  }

  // a run that deletes and creates

  lemma WellFormedOfOneMore(rows: seq<Row>, row: Row, next: Uuid)
    requires WellFormed(Stored(rows, next))
    requires forall i :: 0 <= i < |rows| ==> rows[i].inbound.tag != row.inbound.tag && rows[i].uuid != row.uuid
    ensures WellFormed(Stored(rows + [row], if row.uuid < next then next else row.uuid + 1))
  {
  }

  lemma {:induction false} DeletingKeepsOrder(rows: seq<Row>, next: Uuid, gone: seq<Row>)
    requires WellFormed(Stored(rows, next))
    ensures WellFormed(Stored(Deleted(rows, gone), next))
  {
    if rows != [] {
      var front, last := rows[..|rows| - 1], rows[|rows| - 1];
      assert forall k :: 0 <= k < |front| ==> front[k] == rows[k];
      DeletingKeepsOrder(front, next, gone);
      assert forall i :: 0 <= i < |Deleted(front, gone)| ==> Deleted(front, gone)[i] in Deleted(front, gone);
      WellFormedOfOneMore(Deleted(front, gone), last, next);
    }
  }

  lemma {:induction false} AddedTagsAreUnique(wanted: seq<Inbound>, rows: seq<Row>)
    requires UniqueTags(wanted)
    ensures UniqueTags(ToAdd(wanted, rows))
  {
    if wanted != [] {
      var front, last := wanted[..|wanted| - 1], wanted[|wanted| - 1];
      AddedTagsAreUnique(front, rows);
      var added := ToAdd(front, rows);
      forall i | 0 <= i < |added|
        ensures added[i].tag != last.tag
      {
        assert added[i] in added;
      }
    }
  }

  /** The rows that stay are those whose pair is configured. */
  lemma KeptMeans(s: Stored, wanted: seq<Inbound>, row: Row)
    requires WellFormed(s) && UniqueTags(wanted)
    ensures row in Deleted(s.rows, ToRemove(s.rows, wanted)) <==> row in s.rows && IsWanted(row, wanted)
  {
    StaleMeans(row, wanted);
  }

  lemma AddedTagIsNotKept(s: Stored, wanted: seq<Inbound>, w: Inbound, row: Row)
    requires WellFormed(s) && UniqueTags(wanted)
    requires w in ToAdd(wanted, s.rows) && row in Deleted(s.rows, ToRemove(s.rows, wanted))
    ensures w.tag != row.inbound.tag
  {
    KeptMeans(s, wanted, row);
    MissingMeans(s, w);
    StaleMeans(row, wanted);
    FindInboundFinds(wanted, w);
    assert row.inbound in Stores(s.rows);
  }

  lemma MovingRunIsWellFormed(s: Stored, wanted: seq<Inbound>)
    requires WellFormed(s) && UniqueTags(wanted) && !NothingMoves(s, wanted)
    ensures WellFormed(Synced(s, wanted))
  {
    var kept, added := Deleted(s.rows, ToRemove(s.rows, wanted)), ToAdd(wanted, s.rows);
    DeletingKeepsOrder(s.rows, s.next, ToRemove(s.rows, wanted));
    AddedTagsAreUnique(wanted, s.rows);
    forall i, j | 0 <= i < |kept| && 0 <= j < |added|
      ensures added[j].tag != kept[i].inbound.tag
    {
      assert added[j] in added && kept[i] in kept;
      AddedTagIsNotKept(s, wanted, added[j], kept[i]);
    }
    AppendedIsWellFormed(kept, added, s.next);
  }

  lemma {:induction false} AppendedIsWellFormed(kept: seq<Row>, added: seq<Inbound>, next: Uuid)
    requires WellFormed(Stored(kept, next)) && UniqueTags(added)
    requires forall i, j :: 0 <= i < |kept| && 0 <= j < |added| ==> added[j].tag != kept[i].inbound.tag
    ensures WellFormed(Stored(kept + Created(added, next), next + |added|))
  {
    if added == [] {
      assert kept + Created(added, next) == kept;
    } else {
      var last := |added| - 1;
      AppendedIsWellFormed(kept, added[..last], next);
      var front := kept + Created(added[..last], next);
      assert kept + Created(added, next) == front + [Row(next + last, added[last])];
      WellFormedOfOneMore(front, Row(next + last, added[last]), next + last);
    }
  }

  /** The rows after a deleting and creating run: the kept ones, and missing inbounds under new UUIDs. */
  lemma MovingRunRows(s: Stored, wanted: seq<Inbound>, row: Row)
    requires WellFormed(s) && UniqueTags(wanted) && !NothingMoves(s, wanted)
    ensures row in s.rows ==> (row in Synced(s, wanted).rows <==> IsWanted(row, wanted))
    ensures row in Synced(s, wanted).rows && row !in s.rows ==> row.uuid >= s.next && row.inbound in wanted
  {
    KeptMeans(s, wanted, row);
    var created := Created(ToAdd(wanted, s.rows), s.next);
    assert row in created ==> row.uuid >= s.next && row.inbound in ToAdd(wanted, s.rows);
  }

  lemma MovingRunMatches(s: Stored, wanted: seq<Inbound>)
    requires WellFormed(s) && UniqueTags(wanted) && !NothingMoves(s, wanted)
    ensures SamePairs(Synced(s, wanted).rows, wanted)
  {
    var t := Synced(s, wanted);
    forall row | row in t.rows
      ensures IsWanted(row, wanted)
    {
      MovingRunRows(s, wanted, row);
      assert row.inbound in wanted ==> row.inbound in Wants(wanted);
    }
    forall w | w in wanted
      ensures IsStored(w, t.rows)
    {
      MissingMeans(s, w);
      if w in ToAdd(wanted, s.rows) {
        CreatedHolds(ToAdd(wanted, s.rows), s.next, w);
        assert w in Stores(t.rows);
      } else {
        var row :| row in s.rows && PairOf(row.inbound) == PairOf(w);
        assert w in Wants(wanted);
        KeptMeans(s, wanted, row);
        assert row.inbound in Stores(t.rows);
      }
    }
    PairsCovered(t.rows, wanted);
  }

  lemma CreatedHolds(added: seq<Inbound>, next: Uuid, w: Inbound)
    requires w in added
    ensures w in Stores(Created(added, next))
  {
    var k :| 0 <= k < |added| && added[k] == w;
    assert Created(added, next)[k] in Created(added, next);
  }

  /** After one run the stored pairs are those of the configuration. */
  lemma FirstRun(s: Stored, wanted: seq<Inbound>)
    requires WellFormed(s) && UniqueTags(wanted)
    ensures WellFormed(Synced(s, wanted)) && SamePairs(Synced(s, wanted).rows, wanted)
  {
    NothingMovesMeans(s, wanted);
    if NothingMoves(s, wanted) {
      SecondRun(s, wanted);
    } else {
      MovingRunIsWellFormed(s, wanted);
      MovingRunMatches(s, wanted);
    }
  }

  ghost predicate HasUuid(rows: seq<Row>, uuid: Uuid) {
    exists r :: r in rows && r.uuid == uuid
  }

  /** A UUID outlives the run exactly when its (tag, type) pair is configured, and it keeps that pair. */
  lemma SurvivorsKeepTheirUuid(s: Stored, wanted: seq<Inbound>, row: Row)
    requires WellFormed(s) && UniqueTags(wanted) && row in s.rows
    ensures HasUuid(Synced(s, wanted).rows, row.uuid) <==> IsWanted(row, wanted)
    ensures forall r :: r in Synced(s, wanted).rows && r.uuid == row.uuid ==> PairOf(r.inbound) == PairOf(row.inbound)
  {
    NothingMovesMeans(s, wanted);
    if NothingMoves(s, wanted) {
      UpdatingRun(s, wanted);
      UpdatedRowsSurvive(s, wanted, row);
    } else {
      MovedRowsSurvive(s, wanted, row);
    }
  }

  lemma UpdatedRowsSurvive(s: Stored, wanted: seq<Inbound>, row: Row)
    requires WellFormed(s) && UniqueTags(wanted) && row in s.rows && SamePairs(s.rows, wanted)
    ensures HasUuid(Synced(s, wanted).rows, row.uuid) && IsWanted(row, wanted)
    ensures forall r :: r in Synced(s, wanted).rows && r.uuid == row.uuid ==> PairOf(r.inbound) == PairOf(row.inbound)
  {
    UpdatingRun(s, wanted);
    var t := Synced(s, wanted);
    var k :| 0 <= k < |s.rows| && s.rows[k] == row;
    RefreshedFits(row, wanted);
    assert t.rows[k] in t.rows;
    forall j | 0 <= j < |t.rows| && t.rows[j].uuid == row.uuid
      ensures j == k
    {
      RefreshedFits(s.rows[j], wanted);
    }
  }

  lemma MovedRowsSurvive(s: Stored, wanted: seq<Inbound>, row: Row)
    requires WellFormed(s) && UniqueTags(wanted) && row in s.rows && !NothingMoves(s, wanted)
    ensures HasUuid(Synced(s, wanted).rows, row.uuid) <==> IsWanted(row, wanted)
    ensures forall r :: r in Synced(s, wanted).rows && r.uuid == row.uuid ==> r == row
  {
    MovingRunRows(s, wanted, row);
    forall r | r in Synced(s, wanted).rows && r.uuid == row.uuid
      ensures r == row
    {
      MovingRunRows(s, wanted, r);
      OneRowPerUuid(s, row, r);
    }
  }

  lemma OneRowPerUuid(s: Stored, row: Row, r: Row)
    requires WellFormed(s) && row in s.rows && r.uuid == row.uuid
    ensures r.uuid < s.next
    ensures r in s.rows ==> r == row
  {
  }

  // ----- any number of runs

  function After(runs: nat, s: Stored, wanted: seq<Inbound>): Stored {
    if runs == 0 then s else Synced(After(runs - 1, s, wanted), wanted)
  }

  /** From the second run on the table is as configured and does not change any more. */
  lemma {:induction false} TwoRunsConverge(runs: nat, s: Stored, wanted: seq<Inbound>)
    requires WellFormed(s) && UniqueTags(wanted) && runs >= 2
    ensures Mirrors(After(runs, s, wanted).rows, wanted) && WellFormed(After(runs, s, wanted))
    ensures After(runs, s, wanted) == After(2, s, wanted)
  {
    if runs == 2 {
      assert After(1, s, wanted) == Synced(After(0, s, wanted), wanted);
      FirstRun(s, wanted);
      SecondRun(Synced(s, wanted), wanted);
    } else {
      TwoRunsConverge(runs - 1, s, wanted);
      LaterRun(After(runs - 1, s, wanted), wanted);
    }
  }

  /** One run does it exactly when nothing moves or every row that stays was already up to date. */
  lemma OneRunSuffices(s: Stored, wanted: seq<Inbound>)
    requires WellFormed(s) && UniqueTags(wanted)
    ensures Mirrors(Synced(s, wanted).rows, wanted) <==>
      NothingMoves(s, wanted) || forall row :: row in s.rows && !Stale(row, wanted) ==> row.inbound in wanted
  {
    NothingMovesMeans(s, wanted);
    if NothingMoves(s, wanted) {
      SecondRun(s, wanted);
    } else {
      MovingRunMatches(s, wanted);
      OneMovingRunSuffices(s, wanted);
    }
  }

  lemma OneMovingRunSuffices(s: Stored, wanted: seq<Inbound>)
    requires WellFormed(s) && UniqueTags(wanted) && !NothingMoves(s, wanted)
    requires SamePairs(Synced(s, wanted).rows, wanted)
    ensures Mirrors(Synced(s, wanted).rows, wanted) <==>
      forall row :: row in s.rows && !Stale(row, wanted) ==> row.inbound in wanted
  {
    var t := Synced(s, wanted);
    forall row | row in s.rows
      ensures !Stale(row, wanted) <==> row in t.rows
    {
      StaleMeans(row, wanted);
      MovingRunRows(s, wanted, row);
    }
    forall row | row in t.rows && row !in s.rows
      ensures row.inbound in wanted
    {
      MovingRunRows(s, wanted, row);
    }
    if forall row :: row in t.rows ==> row.inbound in wanted {
      MatchingPairsOfWanted(t.rows, wanted);
    } else {
      var row :| row in t.rows && row.inbound !in wanted;
      assert row.inbound in Stores(t.rows) && row.inbound !in Wants(wanted);
    }
  }

  lemma MatchingPairsOfWanted(rows: seq<Row>, wanted: seq<Inbound>)
    requires UniqueTags(wanted) && SamePairs(rows, wanted) && forall row :: row in rows ==> row.inbound in wanted
    ensures Mirrors(rows, wanted)
  {
    PairsCovered(rows, wanted);
    forall w | w in wanted
      ensures w in Stores(rows)
    {
      assert IsStored(w, rows);
      var row :| row in rows && PairOf(row.inbound) == PairOf(w);
      FindInboundFinds(wanted, w);
      FindInboundFinds(wanted, row.inbound);
    }
  }
}
