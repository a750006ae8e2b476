/** The hash chain of audit.rs: linked rows, the verifier, and what tampering with rows reveals. */
module HashChain {
  import opened Prelude
  import opened HexText

  /** Any hash whose text has the fixed length of `sha256:` and 64 hexadecimal digits. */
  type Hash = Bytes -> HashBytes

  /** The anchor of the first row. */
  function Genesis(): HashBytes {
    HashText(0xe69ba0ea583c19f5b7d6c3d8ddc0e2a2f1e1f8b7e77e5f7f7c1c25b4c1f3a2e5)
  }

  /** The ASCII code of `|`, which separates a row's payload from its link in the hashed text. */
  const BAR: byte := 124

  datatype Row = Row(
    rowid: nat, eventId: string, key: string, createdAt: Bytes,
    recordJson: Bytes, prevHash: Bytes, contentHash: Bytes)

  function Frame(json: Bytes, prev: Bytes): Bytes { json + [BAR] + prev }

  function RowHash(hash: Hash, row: Row): Bytes { hash(Frame(row.recordJson, row.prevHash)) }

  /** The hash that the row after the first `n` must link to. */
  function LinkAfter(rows: seq<Row>, n: nat): Bytes
    requires n <= |rows|
  {
    if n == 0 then Genesis() else rows[n - 1].contentHash
  }

  /** `last_content_hash`: the stored hash of the last row, or the anchor. */
  function Head(rows: seq<Row>): Bytes { LinkAfter(rows, |rows|) }

  ghost predicate LinksAt(rows: seq<Row>, i: nat)
    requires i < |rows|
  {
    rows[i].prevHash == LinkAfter(rows, i)
  }

  ghost predicate HashesAt(hash: Hash, rows: seq<Row>, i: nat)
    requires i < |rows|
  {
    rows[i].contentHash == RowHash(hash, rows[i])
  }

  ghost predicate Linked(hash: Hash, rows: seq<Row>) {
    forall i :: 0 <= i < |rows| ==> LinksAt(rows, i) && HashesAt(hash, rows, i)
  }

  // ----- The verifier -----

  datatype IntegrityFailure =
    | PayloadTampered(rowid: nat, eventId: string)
    | ChainBroken(rowid: nat, eventId: string)

  datatype IntegrityReport = IntegrityReport(recordsChecked: nat, failure: Option<IntegrityFailure>)

  /** Walks the rows from `i`, stopping at the first that does not link or does not hash. */
  function VerifyFrom(hash: Hash, rows: seq<Row>, i: nat, expectedPrev: Bytes): IntegrityReport
    requires i <= |rows|
    decreases |rows| - i
  {
    if i == |rows| then IntegrityReport(i, None)
    else if rows[i].prevHash != expectedPrev then
      IntegrityReport(i, Some(ChainBroken(rows[i].rowid, rows[i].eventId)))
    else if RowHash(hash, rows[i]) != rows[i].contentHash then
      IntegrityReport(i, Some(PayloadTampered(rows[i].rowid, rows[i].eventId)))
    else VerifyFrom(hash, rows, i + 1, rows[i].contentHash)
  }

  function Verify(hash: Hash, rows: seq<Row>): IntegrityReport { VerifyFrom(hash, rows, 0, Genesis()) }

  /** Whether `f` is the right report for the row at `i`, the first bad one. */
  ghost predicate Names(hash: Hash, rows: seq<Row>, i: nat, f: IntegrityFailure)
    requires i < |rows|
  {
    var row := rows[i];
    if !LinksAt(rows, i) then f == ChainBroken(row.rowid, row.eventId)
    else !HashesAt(hash, rows, i) && f == PayloadTampered(row.rowid, row.eventId)
  }

  /** Whether `r` says all rows are good, or gives the first bad row and what broke there. */
  ghost predicate Reports(hash: Hash, rows: seq<Row>, r: IntegrityReport) {
    var n := r.recordsChecked;
    if r.failure.None? then Linked(hash, rows) && n == |rows|
    else n < |rows| && Linked(hash, rows[..n]) && Names(hash, rows, n, r.failure.value)
  }

  lemma {:induction false} VerifyFromExact(hash: Hash, rows: seq<Row>, i: nat)
    requires i <= |rows| && Linked(hash, rows[..i])
    ensures var r := VerifyFrom(hash, rows, i, LinkAfter(rows, i));
            i <= r.recordsChecked && Reports(hash, rows, r)
    decreases |rows| - i
  {
    if i == |rows| {
      assert rows[..i] == rows;
    } else if LinksAt(rows, i) && HashesAt(hash, rows, i) {
      LinkedExtends(hash, rows, i);
      VerifyFromExact(hash, rows, i + 1);
    }
  }

  lemma LinkedExtends(hash: Hash, rows: seq<Row>, i: nat)
    requires i < |rows| && Linked(hash, rows[..i]) && LinksAt(rows, i) && HashesAt(hash, rows, i)
    ensures Linked(hash, rows[..i + 1])
  {
    hide Genesis;
    var t := rows[..i + 1];
    forall k | 0 <= k < i + 1 ensures LinksAt(t, k) && HashesAt(hash, t, k) {
      if k < i {
        assert LinksAt(rows[..i], k) && HashesAt(hash, rows[..i], k);
      }
    }
  }

  /** The verifier passes exactly the linked logs; otherwise `recordsChecked` is the index of the
      first bad row, everything before it is linked, and the failure names the broken check. */
  lemma VerifyExact(hash: Hash, rows: seq<Row>)
    ensures Reports(hash, rows, Verify(hash, rows))
    ensures Verify(hash, rows).failure.None? <==> Linked(hash, rows)
  {
    VerifyFromExact(hash, rows, 0);
    BadRowIsNotLinked(hash, rows, Verify(hash, rows));
  }

  lemma BadRowIsNotLinked(hash: Hash, rows: seq<Row>, r: IntegrityReport)
    requires Reports(hash, rows, r)
    ensures r.failure.Some? ==> !Linked(hash, rows)
  {
  }

  lemma PrefixRowGood(hash: Hash, rows: seq<Row>, n: nat, i: nat)
    requires i < n <= |rows| && Linked(hash, rows[..n])
    ensures LinksAt(rows, i) && HashesAt(hash, rows, i)
  {
    assert LinksAt(rows[..n], i) && HashesAt(hash, rows[..n], i);
  }

  /** There is only one correct report. */
  lemma ReportUnique(hash: Hash, rows: seq<Row>, r: IntegrityReport, r': IntegrityReport)
    requires Reports(hash, rows, r) && Reports(hash, rows, r')
    ensures r == r'
  {
    hide Linked;
    var n, n' := r.recordsChecked, r'.recordsChecked;
    assert rows[..|rows|] == rows;
    if n < n' {
      PrefixRowGood(hash, rows, n', n);
    } else if n' < n {
      PrefixRowGood(hash, rows, n, n');
    }
  }

  /** Conversely, a linked prefix followed by a bad row is reported at that row. */
  lemma VerifyStopsAt(hash: Hash, rows: seq<Row>, i: nat, f: IntegrityFailure)
    requires i < |rows| && Linked(hash, rows[..i]) && Names(hash, rows, i, f)
    ensures Verify(hash, rows) == IntegrityReport(i, Some(f))
  {
    hide Linked;
    VerifyExact(hash, rows);
    ReportUnique(hash, rows, Verify(hash, rows), IntegrityReport(i, Some(f)));
  }

  lemma PrefixLinked(hash: Hash, rows: seq<Row>, n: nat)
    requires n <= |rows| && Linked(hash, rows)
    ensures Linked(hash, rows[..n])
  {
    hide Genesis;
    var t := rows[..n];
    forall k | 0 <= k < n ensures LinksAt(t, k) && HashesAt(hash, t, k) {
      assert LinksAt(rows, k) && HashesAt(hash, rows, k);
    }
  }

  lemma HeadOfAppend(rows: seq<Row>, row: Row)
    ensures Head(rows + [row]) == row.contentHash
  {
  }

  /** A log with a row appended to its head is linked. */
  lemma AppendLinked(hash: Hash, rows: seq<Row>, row: Row)
    requires Linked(hash, rows) && row.prevHash == Head(rows) && row.contentHash == RowHash(hash, row)
    ensures Linked(hash, rows + [row])
  {
    hide Genesis;
    var t := rows + [row];
    assert t[..|rows|] == rows;
    assert t[..|rows| + 1] == t;
    LinkedExtends(hash, t, |rows|);
  }

  // ----- Tampering -----

  /** Evidence that the hash itself was broken. */
  datatype Break = Collision(x: Bytes, y: Bytes) | GenesisPreimage(x: Bytes)

  ghost predicate Breaks(hash: Hash, b: Break) {
    match b
    case Collision(x, y) => x != y && hash(x) == hash(y)
    case GenesisPreimage(x) => hash(x) == Genesis()
  }

  /** The hashed columns of two rows agree. */
  predicate SameCells(p: Row, r: Row) {
    p.recordJson == r.recordJson && p.prevHash == r.prevHash && p.contentHash == r.contentHash
  }

  /** The hashed columns of two logs agree. */
  ghost predicate SameContent(a: seq<Row>, b: seq<Row>) {
    |a| == |b| && forall i :: 0 <= i < |a| ==> SameCells(a[i], b[i])
  }

  /** The framing is injective on links of equal length, whatever the payloads contain. */
  lemma FrameInjective(j: Bytes, p: Bytes, j': Bytes, p': Bytes)
    requires |p| == |p'| && Frame(j, p) == Frame(j', p')
    ensures j == j' && p == p'
  {
    var f := Frame(j, p);
    assert |j| == |j'|;
    assert f[..|j|] == j && Frame(j', p')[..|j|] == j';
    assert f[|j| + 1..] == p && Frame(j', p')[|j| + 1..] == p';
  }

  /** For ASCII text the hashed bytes are the payload, a bar and the link. */
  lemma FrameText(json: string, prev: string)
    requires IsAscii(json) && IsAscii(prev)
    ensures IsAscii(json + "|" + prev) && Frame(Ascii(json), Ascii(prev)) == Ascii(json + "|" + prev)
  {
    assert '|' as int == BAR;
    AsciiConcat(json, "|");
    AsciiConcat(json + "|", prev);
    assert Ascii("|") == [BAR];
  }

  lemma LinkLength(hash: Hash, rows: seq<Row>, n: nat)
    requires Linked(hash, rows) && n <= |rows|
    ensures |LinkAfter(rows, n)| == HASH_LENGTH
  {
    if n > 0 {
      assert HashesAt(hash, rows, n - 1);
    }
  }

  /** Two linked logs with the same head hold the same content, or the hash is broken. */
  lemma {:induction false} TamperEvidence(hash: Hash, a: seq<Row>, b: seq<Row>) returns (e: Option<Break>)
    requires Linked(hash, a) && Linked(hash, b) && Head(a) == Head(b)
    ensures e.Some? ==> Breaks(hash, e.value)
    ensures e.None? ==> SameContent(a, b)
    decreases |a| + |b|
  {
    hide Linked, LinkAfter, SameContent, Breaks;
    if a == [] || b == [] {
      e := OneIsEmpty(hash, a, b);
    } else {
      var m, n := |a| - 1, |b| - 1;
      e := LastRowsAgree(hash, a, b);
      if e.None? {
        PrefixLinked(hash, a, m);
        PrefixLinked(hash, b, n);
        HeadOfPrefix(a, m);
        HeadOfPrefix(b, n);
        e := TamperEvidence(hash, a[..m], b[..n]);
        if e.None? {
          SameContentExtends(a, b);
        }
      }
    }
  }

  lemma HeadOfPrefix(rows: seq<Row>, n: nat)
    requires n <= |rows|
    ensures Head(rows[..n]) == LinkAfter(rows, n)
  {
    hide Genesis;
  }

  lemma LastRowsAgree(hash: Hash, a: seq<Row>, b: seq<Row>) returns (e: Option<Break>)
    requires Linked(hash, a) && Linked(hash, b) && a != [] && b != [] && Head(a) == Head(b)
    ensures e.Some? ==> Breaks(hash, e.value)
    ensures var m, n := |a| - 1, |b| - 1;
            e.None? ==> a[m].recordJson == b[n].recordJson && a[m].prevHash == b[n].prevHash
                        && LinkAfter(a, m) == LinkAfter(b, n) && a[m].contentHash == b[n].contentHash
  {
    hide Genesis;
    var x, y := a[|a| - 1], b[|b| - 1];
    assert LinksAt(a, |a| - 1) && HashesAt(hash, a, |a| - 1);
    assert LinksAt(b, |b| - 1) && HashesAt(hash, b, |b| - 1);
    var f, g := Frame(x.recordJson, x.prevHash), Frame(y.recordJson, y.prevHash);
    if f != g {
      e := Some(Collision(f, g));
    } else {
      LinkLength(hash, a, |a| - 1);
      LinkLength(hash, b, |b| - 1);
      FrameInjective(x.recordJson, x.prevHash, y.recordJson, y.prevHash);
      e := None;
    }
  }

  lemma OneIsEmpty(hash: Hash, a: seq<Row>, b: seq<Row>) returns (e: Option<Break>)
    requires Linked(hash, a) && Linked(hash, b) && Head(a) == Head(b) && (a == [] || b == [])
    ensures e.Some? ==> Breaks(hash, e.value)
    ensures e.None? ==> SameContent(a, b)
  {
    hide Genesis;
    if a == [] && b == [] {
      e := None;
    } else if a == [] {
      var x := HeadIsGenesis(hash, b);
      e := Some(x);
    } else {
      var x := HeadIsGenesis(hash, a);
      e := Some(x);
    }
  }

  lemma HeadIsGenesis(hash: Hash, rows: seq<Row>) returns (b: Break)
    requires Linked(hash, rows) && rows != [] && Head(rows) == Genesis()
    ensures Breaks(hash, b)
  {
    var row := rows[|rows| - 1];
    assert HashesAt(hash, rows, |rows| - 1);
    b := GenesisPreimage(Frame(row.recordJson, row.prevHash));
  }

  lemma SameContentExtends(a: seq<Row>, b: seq<Row>)
    requires |a| > 0 && |b| > 0 && SameContent(a[..|a| - 1], b[..|b| - 1])
    requires SameCells(a[|a| - 1], b[|b| - 1])
    ensures SameContent(a, b)
  {
    var m := |a| - 1;
    forall i | 0 <= i < |a| ensures SameCells(a[i], b[i]) {
      if i < m {
        assert SameCells(a[..m][i], b[..m][i]);
      }
    }
  }

  /** No hash occurs twice along a linked log, or the hash is broken. */
  lemma LinksDiffer(hash: Hash, rows: seq<Row>, i: nat, j: nat) returns (e: Option<Break>)
    requires Linked(hash, rows) && i < j <= |rows|
    ensures e.Some? ==> Breaks(hash, e.value)
    ensures e.None? ==> LinkAfter(rows, i) != LinkAfter(rows, j)
  {
    if LinkAfter(rows, i) == LinkAfter(rows, j) {
      PrefixLinked(hash, rows, i);
      PrefixLinked(hash, rows, j);
      e := TamperEvidence(hash, rows[..i], rows[..j]);
    } else {
      e := None;
    }
  }

  /** Deleting any rows but a suffix is reported as a broken chain at the gap, naming the row
      that now stands there, or the hash is broken. */
  lemma DeletionDetected(hash: Hash, rows: seq<Row>, i: nat, j: nat) returns (e: Option<Break>)
    requires Linked(hash, rows) && i < j < |rows|
    ensures e.Some? ==> Breaks(hash, e.value)
    ensures e.None? ==> Verify(hash, rows[..i] + rows[j..])
                        == IntegrityReport(i, Some(ChainBroken(rows[j].rowid, rows[j].eventId)))
  {
    e := LinksDiffer(hash, rows, i, j);
    if e.None? {
      var t := rows[..i] + rows[j..];
      assert t[i] == rows[j] && t[..i] == rows[..i];
      PrefixLinked(hash, rows, i);
      assert LinksAt(rows, j);
      assert LinkAfter(t, i) == LinkAfter(rows, i);
      VerifyStopsAt(hash, t, i, ChainBroken(rows[j].rowid, rows[j].eventId));
    }
  }

  /** Two linked logs in which the same hash is to be linked to, after `i` rows of one and `j` of
      the other, have the same content up to there, so `i` is `j`; or the hash is broken. */
  lemma SharedLinkSharesPast(hash: Hash, a: seq<Row>, b: seq<Row>, i: nat, j: nat) returns (e: Option<Break>)
    requires Linked(hash, a) && Linked(hash, b) && i <= |a| && j <= |b| && LinkAfter(a, i) == LinkAfter(b, j)
    ensures e.Some? ==> Breaks(hash, e.value)
    ensures e.None? ==> i == j && SameContent(a[..i], b[..j])
  {
    hide Linked, LinkAfter, Breaks;
    PrefixLinked(hash, a, i);
    PrefixLinked(hash, b, j);
    HeadOfPrefix(a, i);
    HeadOfPrefix(b, j);
    e := TamperEvidence(hash, a[..i], b[..j]);
  }

  /** Inserting any row before the last is reported at that row, or as a broken chain at the row it
      pushed back, or the hash is broken. */
  lemma InsertionDetected(hash: Hash, rows: seq<Row>, i: nat, x: Row) returns (e: Option<Break>)
    requires Linked(hash, rows) && i < |rows|
    ensures e.Some? ==> Breaks(hash, e.value)
    ensures e.None? ==>
              var r := Verify(hash, rows[..i] + [x] + rows[i..]);
              r.failure.Some?
              && (r.recordsChecked == i
                  || r == IntegrityReport(i + 1, Some(ChainBroken(rows[i].rowid, rows[i].eventId))))
  {
    hide Genesis, Breaks, Frame, Verify;
    var t := rows[..i] + [x] + rows[i..];
    assert t[..i] == rows[..i] && t[i] == x && t[i + 1] == rows[i];
    PrefixLinked(hash, rows, i);
    assert LinkAfter(t, i) == LinkAfter(rows, i);
    assert LinksAt(rows, i);
    e := None;
    if !LinksAt(t, i) {
      VerifyStopsAt(hash, t, i, ChainBroken(x.rowid, x.eventId));
    } else if !HashesAt(hash, t, i) {
      VerifyStopsAt(hash, t, i, PayloadTampered(x.rowid, x.eventId));
    } else {
      LinkedExtends(hash, t, i);
      if LinksAt(t, i + 1) {
        assert t[..i + 1] == rows[..i] + [x];
        e := RepeatedLink(hash, t[..i + 1]);
      } else {
        VerifyStopsAt(hash, t, i + 1, ChainBroken(rows[i].rowid, rows[i].eventId));
      }
    }
  }

  /** A linked log whose last row links to its own hash breaks the hash. */
  lemma RepeatedLink(hash: Hash, rows: seq<Row>) returns (e: Option<Break>)
    requires rows != [] && Linked(hash, rows) && Head(rows) == LinkAfter(rows, |rows| - 1)
    ensures e.Some? && Breaks(hash, e.value)
  {
    hide Linked, LinkAfter, Breaks;
    e := LinksDiffer(hash, rows, |rows| - 1, |rows|);
  }

  /** Some row of `rows` has the content of `p`. */
  ghost predicate Occurs(p: Row, rows: seq<Row>) {
    exists i :: 0 <= i < |rows| && SameCells(p, rows[i])
  }

  /** Every row of `other` holds the content of some row of `rows`: whatever is left after moving,
      dropping or repeating rows, or rewriting the columns that are not hashed. */
  ghost predicate DrawnFrom(other: seq<Row>, rows: seq<Row>) {
    forall k :: 0 <= k < |other| ==> Occurs(other[k], rows)
  }

  /** `other` is the beginning of `rows`, as far as the hashed columns go. */
  ghost predicate BeginsLike(other: seq<Row>, rows: seq<Row>) {
    |other| <= |rows| && SameContent(other, rows[..|other|])
  }

  /** However the rows of a linked log are moved, dropped or repeated, the verifier passes the
      result exactly when only a suffix was dropped, or the hash is broken. */
  lemma RearrangementDetected(hash: Hash, rows: seq<Row>, other: seq<Row>) returns (e: Option<Break>)
    requires Linked(hash, rows) && DrawnFrom(other, rows)
    ensures e.Some? ==> Breaks(hash, e.value)
    ensures e.None? ==> (Verify(hash, other).failure.None? <==> BeginsLike(other, rows))
  {
    hide Linked, DrawnFrom, SameContent, Verify, Breaks;
    VerifyExact(hash, other);
    if BeginsLike(other, rows) {
      e := None;
      SuffixRemovalPasses(hash, rows, |other|);
      VerdictIgnoresOtherColumns(hash, other, rows[..|other|]);
    } else if Linked(hash, other) {
      e := LinkedRowsKeepOrder(hash, rows, other);
    } else {
      e := None;
    }
  }

  lemma {:induction false} LinkedRowsKeepOrder(hash: Hash, rows: seq<Row>, other: seq<Row>)
    returns (e: Option<Break>)
    requires Linked(hash, rows) && Linked(hash, other) && DrawnFrom(other, rows)
    ensures e.Some? ==> Breaks(hash, e.value)
    ensures e.None? ==> BeginsLike(other, rows)
    decreases |other|
  {
    hide Linked, LinkAfter, Breaks, SameContent, DrawnFrom;
    if other == [] {
      EmptyBegins(rows);
      e := None;
    } else {
      var m := |other| - 1;
      PrefixLinked(hash, other, m);
      PrefixDrawn(other, rows, m);
      e := LinkedRowsKeepOrder(hash, rows, other[..m]);
      if e.None? {
        e := LastRowInPlace(hash, rows, other);
      }
    }
  }

  lemma PrefixDrawn(other: seq<Row>, rows: seq<Row>, m: nat)
    requires m <= |other| && DrawnFrom(other, rows)
    ensures DrawnFrom(other[..m], rows)
  {
    hide Occurs;
  }

  lemma EmptyBegins(rows: seq<Row>)
    ensures BeginsLike([], rows)
  {
  }

  /** A last row drawn from `rows` links only where it stood. */
  lemma LastRowInPlace(hash: Hash, rows: seq<Row>, other: seq<Row>) returns (e: Option<Break>)
    requires Linked(hash, rows) && Linked(hash, other) && DrawnFrom(other, rows)
    requires other != [] && BeginsLike(other[..|other| - 1], rows)
    ensures e.Some? ==> Breaks(hash, e.value)
    ensures e.None? ==> BeginsLike(other, rows)
  {
    hide Genesis, Breaks, Frame;
    var m := |other| - 1;
    assert Occurs(other[m], rows);
    var i :| 0 <= i < |rows| && SameCells(other[m], rows[i]);
    assert LinksAt(other, m) && LinksAt(rows, i);
    assert LinkAfter(other, m) == LinkAfter(rows, m) by {
      if m > 0 {
        assert SameCells(other[..m][m - 1], rows[..m][m - 1]);
      }
    }
    e := None;
    if i < m {
      e := LinksDiffer(hash, rows, i, m);
    } else if m < i {
      e := LinksDiffer(hash, rows, m, i);
    }
    if e.None? {
      assert rows[..m + 1][..m] == rows[..m];
      SameContentExtends(other, rows[..m + 1]);
    }
  }

  /** Editing the payload of any row is reported at that row, or yields a collision. */
  lemma EditDetected(hash: Hash, rows: seq<Row>, i: nat, json: Bytes) returns (e: Option<Break>)
    requires Linked(hash, rows) && i < |rows| && json != rows[i].recordJson
    ensures e.Some? ==> Breaks(hash, e.value)
    ensures e.None? ==> Verify(hash, rows[i := rows[i].(recordJson := json)])
                        == IntegrityReport(i, Some(PayloadTampered(rows[i].rowid, rows[i].eventId)))
  {
    var t := rows[i := rows[i].(recordJson := json)];
    assert LinksAt(rows, i) && HashesAt(hash, rows, i);
    var f, g := Frame(rows[i].recordJson, rows[i].prevHash), Frame(json, rows[i].prevHash);
    if f == g {
      FrameInjective(rows[i].recordJson, rows[i].prevHash, json, rows[i].prevHash);
    }
    if hash(f) == hash(g) {
      e := Some(Collision(f, g));
    } else {
      e := None;
      assert t[..i] == rows[..i];
      PrefixLinked(hash, rows, i);
      assert LinkAfter(t, i) == LinkAfter(rows, i);
      VerifyStopsAt(hash, t, i, PayloadTampered(rows[i].rowid, rows[i].eventId));
    }
  }

  /** Replacing any row before the last by one with other hashed columns is reported at that row, or
      as a broken chain at the next, or the hash is broken. */
  lemma ReplacementDetected(hash: Hash, rows: seq<Row>, i: nat, x: Row) returns (e: Option<Break>)
    requires Linked(hash, rows) && i + 1 < |rows| && !SameCells(x, rows[i])
    ensures e.Some? ==> Breaks(hash, e.value)
    ensures e.None? ==>
              var r := Verify(hash, rows[i := x]);
              r.failure.Some?
              && (r.recordsChecked == i
                  || r == IntegrityReport(i + 1, Some(ChainBroken(rows[i + 1].rowid, rows[i + 1].eventId))))
  {
    hide Genesis, Frame, Verify;
    var t := rows[i := x];
    assert t[..i] == rows[..i] && t[i + 1] == rows[i + 1];
    PrefixLinked(hash, rows, i);
    assert LinkAfter(t, i) == LinkAfter(rows, i);
    assert LinksAt(rows, i) && HashesAt(hash, rows, i) && LinksAt(rows, i + 1);
    e := None;
    if !LinksAt(t, i) {
      VerifyStopsAt(hash, t, i, ChainBroken(x.rowid, x.eventId));
    } else if !HashesAt(hash, t, i) {
      VerifyStopsAt(hash, t, i, PayloadTampered(x.rowid, x.eventId));
    } else if x.contentHash == rows[i].contentHash {
      e := CollidingRows(hash, x, rows[i]);
    } else {
      LinkedExtends(hash, t, i);
      VerifyStopsAt(hash, t, i + 1, ChainBroken(rows[i + 1].rowid, rows[i + 1].eventId));
    }
  }

  /** Two rows with one link and one hash but different payloads make a collision. */
  lemma CollidingRows(hash: Hash, x: Row, y: Row) returns (e: Option<Break>)
    requires x.contentHash == RowHash(hash, x) && y.contentHash == RowHash(hash, y)
    requires x.prevHash == y.prevHash && x.contentHash == y.contentHash && x.recordJson != y.recordJson
    ensures e.Some? && Breaks(hash, e.value)
  {
    var f, g := Frame(x.recordJson, x.prevHash), Frame(y.recordJson, y.prevHash);
    if f == g {
      FrameInjective(x.recordJson, x.prevHash, y.recordJson, y.prevHash);
    }
    e := Some(Collision(f, g));
  }

  /** What the chain cannot show: dropping a suffix passes the verifier. */
  lemma SuffixRemovalPasses(hash: Hash, rows: seq<Row>, n: nat)
    requires Linked(hash, rows) && n <= |rows|
    ensures Verify(hash, rows[..n]) == IntegrityReport(n, None)
  {
    PrefixLinked(hash, rows, n);
    VerifyExact(hash, rows[..n]);
  }

  /** Nor does it cover the other columns: the verdict depends on the hashed columns alone. */
  lemma VerdictIgnoresOtherColumns(hash: Hash, a: seq<Row>, b: seq<Row>)
    requires SameContent(a, b)
    ensures Verify(hash, a).failure.None? <==> Verify(hash, b).failure.None?
    ensures Verify(hash, a).recordsChecked == Verify(hash, b).recordsChecked
  {
    SameWalk(hash, a, b, 0, Genesis());
  }

  lemma {:induction false} SameWalk(hash: Hash, a: seq<Row>, b: seq<Row>, i: nat, expected: Bytes)
    requires SameContent(a, b) && i <= |a|
    ensures VerifyFrom(hash, a, i, expected).failure.None? <==> VerifyFrom(hash, b, i, expected).failure.None?
    ensures VerifyFrom(hash, a, i, expected).recordsChecked == VerifyFrom(hash, b, i, expected).recordsChecked
    decreases |a| - i
  {
    if i < |a| {
      SameWalk(hash, a, b, i + 1, a[i].contentHash);
    }
  }
}
