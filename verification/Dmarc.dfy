/**
 DMARC alignment statistics (modoboa/dmarc/lib.py): every record of the period is put in one of
 four buckets, and counted there under the name and the address of its source.
 */
module Dmarc {
  import opened Strings

  datatype Record = Record(sourceIp: string, count: int, spfResult: string, dkimResult: string,
                           reasonType: string, reasonComment: string)

  datatype Outcome = Outcome(success: int, failure: int)

  datatype Cell = Cell(total: int, spf: Outcome, dkim: Outcome)

  /** name -> source_ip -> cell. */
  type Cells = map<string, map<string, Cell>>

  datatype Kind = Aligned | Trusted | Forwarded | Failed

  const ZERO := Cell(0, Outcome(0, 0), Outcome(0, 0))

  function Classify(r: Record): Kind {
    if r.dkimResult == "pass" && r.spfResult == "pass" then Aligned
    else if r.dkimResult == "pass" || r.spfResult == "pass" then Trusted
    else if r.reasonType == "local_policy" && StartsWith(r.reasonComment, "arc=pass") then Forwarded
    else Failed
  }

  /** `dns_names.get(ip, "Not resolved")`. */
  function NameOf(names: map<string, string>, ip: string): string {
    if ip in names then names[ip] else "Not resolved"
  }

  function Counted(o: Outcome, result: string, count: int): Outcome {
    if result == "pass" then o.(success := o.success + count) else o.(failure := o.failure + count)
  }

  function CellOf(cells: Cells, name: string, ip: string): Cell {
    if name in cells && ip in cells[name] then cells[name][ip] else ZERO
  }

  predicate Has(cells: Cells, name: string, ip: string) {
    name in cells && ip in cells[name]
  }

  /** A cell after one more record. */
  function Added(c: Cell, r: Record): Cell {
    Cell(c.total + r.count, Counted(c.spf, r.spfResult, r.count), Counted(c.dkim, r.dkimResult, r.count))
  }

  /** The cells after one more record. */
  function Inserted(cells: Cells, r: Record, name: string): Cells {
    var row := if name in cells then cells[name] else map[];
    var cell := CellOf(cells, name, r.sourceIp);
    cells[name := row[r.sourceIp := Added(cell, r)]]
  }

  /** The cells of one bucket once all the records are in. */
  function Filled(records: seq<Record>, k: Kind, names: map<string, string>): Cells {
    if records == [] then map[]
    else
      var r := records[|records| - 1];
      var before := Filled(records[..|records| - 1], k, names);
      if Classify(r) == k then Inserted(before, r, NameOf(names, r.sourceIp)) else before
  }

  /** The four kinds: both checks pass, exactly one, or none; in the last case the record was
      forwarded exactly when a local policy overrode the verdict and its comment starts "arc=pass". */
  lemma KindsAre(r: Record)
    ensures var spf, dkim := r.spfResult == "pass", r.dkimResult == "pass";
            var arc := r.reasonType == "local_policy" && |r.reasonComment| >= 8 && r.reasonComment[..8] == "arc=pass";
            && (Classify(r) == Aligned <==> spf && dkim)
            && (Classify(r) == Trusted <==> spf != dkim)
            && (Classify(r) == Forwarded <==> !spf && !dkim && arc)
            && (Classify(r) == Failed <==> !spf && !dkim && !arc)
  {
  }

  /** One forwarded record of three messages, its source without a name. */
  lemma ForwardedExample(r: Record)
    requires r == Record("192.0.2.1", 3, "fail", "none", "local_policy", "arc=pass as[1]")
    ensures Filled([r], Forwarded, map[]) ==
            map["Not resolved" := map["192.0.2.1" := Cell(3, Outcome(0, 3), Outcome(0, 3))]]
    ensures Filled([r], Failed, map[]) == map[]
    ensures Filled([r], Forwarded, map["192.0.2.1" := "a.org"]) ==
            map["a.org" := map["192.0.2.1" := Cell(3, Outcome(0, 3), Outcome(0, 3))]]
  {
    assert r.reasonComment[..8] == "arc=pass";
    assert [r][..0] == [];
    var cell := Cell(3, Outcome(0, 3), Outcome(0, 3));
    assert Added(ZERO, r) == cell;
    OneRecord(r, "Not resolved");
    OneRecord(r, "a.org");
  }

  lemma OneRecord(r: Record, name: string)
    ensures Inserted(map[], r, name) == map[name := map[r.sourceIp := Added(ZERO, r)]]
  {
  }

  // ---------------------------------------------------------------- the loops

  class Bucket {
    var cells: Cells

    constructor ()
      ensures cells == map[]
    {
      cells := map[];
    }

    method InsertRecord(r: Record, name: string)
      modifies this
      ensures cells == Inserted(old(cells), r, name)
    {
      ghost var row := if name in cells then cells[name] else map[];
      if name !in cells {
        cells := cells[name := map[]];
      }
      if r.sourceIp !in cells[name] {
        cells := cells[name := cells[name][r.sourceIp := ZERO]];
      }
      var cell := cells[name][r.sourceIp];
      cell := cell.(total := cell.total + r.count);
      cell := cell.(spf := Counted(cell.spf, r.spfResult, r.count));
      cell := cell.(dkim := Counted(cell.dkim, r.dkimResult, r.count));
      cells := cells[name := cells[name][r.sourceIp := cell]];
      assert cells[name] == row[r.sourceIp := cell];
      assert cells == old(cells)[name := row[r.sourceIp := cell]];
    }
  }

  class Stats {
    const aligned: Bucket
    const trusted: Bucket
    const forwarded: Bucket
    const failed: Bucket

    constructor ()
      ensures fresh(aligned) && fresh(trusted) && fresh(forwarded) && fresh(failed)
      ensures Separate() && forall k :: Of(k).cells == map[]
    {
      aligned := new Bucket();
      trusted := new Bucket();
      forwarded := new Bucket();
      failed := new Bucket();
    }

    predicate Separate() {
      && aligned != trusted && aligned != forwarded && aligned != failed
      && trusted != forwarded && trusted != failed && forwarded != failed
    }

    function Of(k: Kind): Bucket {
      match k
      case Aligned => aligned
      case Trusted => trusted
      case Forwarded => forwarded
      case Failed => failed
    }

    method Add(r: Record, name: string)
      requires Separate()
      modifies aligned, trusted, forwarded, failed
      ensures forall k :: Of(k).cells ==
                (if Classify(r) == k then Inserted(old(Of(k).cells), r, name) else old(Of(k).cells))
    {
      if r.dkimResult == "pass" && r.spfResult == "pass" {
        aligned.InsertRecord(r, name);
      } else if r.dkimResult == "pass" || r.spfResult == "pass" {
        trusted.InsertRecord(r, name);
      } else if r.reasonType == "local_policy" && StartsWith(r.reasonComment, "arc=pass") {
        forwarded.InsertRecord(r, name);
      } else {
        failed.InsertRecord(r, name);
      }
    }

    method Fill(records: seq<Record>, names: map<string, string>)
      requires Separate() && forall k :: Of(k).cells == map[]
      modifies aligned, trusted, forwarded, failed
      ensures forall k :: Of(k).cells == Filled(records, k, names)
    {
      var i := 0;
      while i < |records|
        invariant 0 <= i <= |records|
        invariant forall k :: Of(k).cells == Filled(records[..i], k, names)
      {
        FilledStep(records, i, names);
        Add(records[i], NameOf(names, records[i].sourceIp));
        i := i + 1;
      }
      assert records[..i] == records;
    }
  }

  lemma FilledStep(records: seq<Record>, i: nat, names: map<string, string>)
    requires i < |records|
    ensures forall k :: Filled(records[..i + 1], k, names) ==
              (if Classify(records[i]) == k
               then Inserted(Filled(records[..i], k, names), records[i], NameOf(names, records[i].sourceIp))
               else Filled(records[..i], k, names))
  {
    assert records[..i + 1][..i] == records[..i];
  }

  // ---------------------------------------------------------------- what a cell counts

  /** The records that a cell stands for. */
  predicate Belongs(r: Record, k: Kind, names: map<string, string>, name: string, ip: string) {
    Classify(r) == k && r.sourceIp == ip && NameOf(names, ip) == name
  }

  /** The sum of the counts of the records selected by `p`. */
  function Sum(records: seq<Record>, p: Record -> bool): int {
    if records == [] then 0 else (if p(records[0]) then records[0].count else 0) + Sum(records[1..], p)
  }

  function Select(k: Kind, names: map<string, string>, name: string, ip: string): Record -> bool {
    (r: Record) => Belongs(r, k, names, name, ip)
  }

  function And(p: Record -> bool, q: Record -> bool): Record -> bool {
    (r: Record) => p(r) && q(r)
  }

  function SpfPasses(pass: bool): Record -> bool {
    (r: Record) => (r.spfResult == "pass") == pass
  }

  function DkimPasses(pass: bool): Record -> bool {
    (r: Record) => (r.dkimResult == "pass") == pass
  }

  /** The cell as the statistics promise it. */
  function Promised(records: seq<Record>, p: Record -> bool): Cell {
    Cell(Sum(records, p),
         Outcome(Sum(records, And(p, SpfPasses(true))), Sum(records, And(p, SpfPasses(false)))),
         Outcome(Sum(records, And(p, DkimPasses(true))), Sum(records, And(p, DkimPasses(false)))))
  }

  lemma {:induction false} SumConcat(a: seq<Record>, b: seq<Record>, p: Record -> bool)
    ensures Sum(a + b, p) == Sum(a, p) + Sum(b, p)
  {
    if a == [] {
      assert a + b == b;
    } else {
      assert (a + b)[0] == a[0] && (a + b)[1..] == a[1..] + b;
      SumConcat(a[1..], b, p);
    }
  }

  lemma SumLast(records: seq<Record>, p: Record -> bool)
    requires records != []
    ensures var r := records[|records| - 1];
            Sum(records, p) == Sum(records[..|records| - 1], p) + if p(r) then r.count else 0
  {
    var n := |records| - 1;
    assert records == records[..n] + [records[n]];
    SumConcat(records[..n], [records[n]], p);
    assert [records[n]][1..] == [];
  }

  lemma PromisedLast(records: seq<Record>, p: Record -> bool)
    requires records != []
    ensures var r := records[|records| - 1]; var c := Promised(records[..|records| - 1], p);
            Promised(records, p) ==
            if p(r) then Added(c, r) else c
  {
    SumLast(records, p);
    SumLast(records, And(p, SpfPasses(true)));
    SumLast(records, And(p, SpfPasses(false)));
    SumLast(records, And(p, DkimPasses(true)));
    SumLast(records, And(p, DkimPasses(false)));
  }

  lemma InsertedCell(cells: Cells, r: Record, rname: string, name: string, ip: string)
    ensures var here := rname == name && r.sourceIp == ip; var c := CellOf(cells, name, ip);
            && CellOf(Inserted(cells, r, rname), name, ip) ==
               (if here then Added(c, r) else c)
            && (Has(Inserted(cells, r, rname), name, ip) <==> here || Has(cells, name, ip))
  {
  }

  /** Every cell, present or not, is the sum over exactly its records; it is present exactly
      when there is one. */
  lemma {:induction false} CellIsPromised(records: seq<Record>, k: Kind, names: map<string, string>, name: string,
                                          ip: string)
    ensures CellOf(Filled(records, k, names), name, ip) == Promised(records, Select(k, names, name, ip))
    ensures Has(Filled(records, k, names), name, ip) <==>
            SomeRecord(records, k, names, name, ip)
  {
    if records != [] {
      var n := |records| - 1;
      var r, rest := records[n], records[..n];
      CellIsPromised(rest, k, names, name, ip);
      PromisedLast(records, Select(k, names, name, ip));
      InsertedCell(Filled(rest, k, names), r, NameOf(names, r.sourceIp), name, ip);
      SomeLast(records, k, names, name, ip);
    }
  }

  predicate SomeRecord(records: seq<Record>, k: Kind, names: map<string, string>, name: string, ip: string) {
    exists i :: 0 <= i < |records| && Belongs(records[i], k, names, name, ip)
  }

  lemma SomeLast(records: seq<Record>, k: Kind, names: map<string, string>, name: string, ip: string)
    requires records != []
    ensures SomeRecord(records, k, names, name, ip) <==>
            || Belongs(records[|records| - 1], k, names, name, ip)
            || SomeRecord(records[..|records| - 1], k, names, name, ip)
  {
    var rest := records[..|records| - 1];
    assert forall i :: 0 <= i < |rest| ==> rest[i] == records[i];
    if i :| 0 <= i < |records| && Belongs(records[i], k, names, name, ip) {
      assert i < |rest| ==> Belongs(rest[i], k, names, name, ip);
    }
  }

  // ---------------------------------------------------------------- consequences

  lemma {:induction false} SumTake(records: seq<Record>, i: nat, p: Record -> bool)
    requires i < |records|
    ensures Sum(records, p) == Sum(records[..i] + records[i + 1..], p) + if p(records[i]) then records[i].count else 0
  {
    var r := records[i];
    assert records == records[..i] + ([r] + records[i + 1..]);
    SumConcat(records[..i], [r] + records[i + 1..], p);
    SumConcat([r], records[i + 1..], p);
    SumConcat(records[..i], records[i + 1..], p);
    assert [r][1..] == [];
  }

  lemma MultisetTake<T>(s: seq<T>, i: nat)
    requires i < |s|
    ensures multiset(s) == multiset(s[..i] + s[i + 1..]) + multiset{s[i]}
  {
    assert s == s[..i] + [s[i]] + s[i + 1..];
  }

  lemma SameRest<T>(a: multiset<T>, b: multiset<T>, x: T)
    requires a + multiset{x} == b + multiset{x}
    ensures a == b
  {
    assert a == a + multiset{x} - multiset{x} && b == b + multiset{x} - multiset{x};
  }

  lemma NoneLeft<T>(s: seq<T>)
    requires multiset(s) == multiset{}
    ensures s == []
  {
    assert |multiset(s)| == |s|;
  }

  /** Taking the first element of one out of the other leaves a permutation of the rest. */
  lemma TakeFirst<T>(a: seq<T>, b: seq<T>) returns (i: nat)
    requires a != [] && multiset(a) == multiset(b)
    ensures i < |b| && b[i] == a[0] && multiset(a[1..]) == multiset(b[..i] + b[i + 1..])
  {
    assert a[0] in multiset(b);
    i :| 0 <= i < |b| && b[i] == a[0];
    MultisetTake(a, 0);
    MultisetTake(b, i);
    assert a[..0] + a[1..] == a[1..];
    SameRest(multiset(a[1..]), multiset(b[..i] + b[i + 1..]), a[0]);
  }

  lemma {:induction false} SumOfPermutation(a: seq<Record>, b: seq<Record>, p: Record -> bool)
    requires multiset(a) == multiset(b)
    ensures Sum(a, p) == Sum(b, p)
    decreases |a|
  {
    if a == [] {
      NoneLeft(b);
    } else {
      var i := TakeFirst(a, b);
      SumTake(b, i, p);
      SumOfPermutation(a[1..], b[..i] + b[i + 1..], p);
    }
  }

  lemma SameCells(a: seq<Record>, b: seq<Record>, k: Kind, names: map<string, string>, name: string, ip: string)
    requires multiset(a) == multiset(b)
    ensures CellOf(Filled(a, k, names), name, ip) == CellOf(Filled(b, k, names), name, ip)
    ensures Has(Filled(a, k, names), name, ip) <==> Has(Filled(b, k, names), name, ip)
  {
    var p := Select(k, names, name, ip);
    CellIsPromised(a, k, names, name, ip);
    CellIsPromised(b, k, names, name, ip);
    SumOfPermutation(a, b, p);
    SumOfPermutation(a, b, And(p, SpfPasses(true)));
    SumOfPermutation(a, b, And(p, SpfPasses(false)));
    SumOfPermutation(a, b, And(p, DkimPasses(true)));
    SumOfPermutation(a, b, And(p, DkimPasses(false)));
    SomeOfPermutation(a, b, k, names, name, ip);
    SomeOfPermutation(b, a, k, names, name, ip);
  }

  lemma SomeOfPermutation(a: seq<Record>, b: seq<Record>, k: Kind, names: map<string, string>, name: string, ip: string)
    requires multiset(a) == multiset(b)
    ensures SomeRecord(a, k, names, name, ip) ==> SomeRecord(b, k, names, name, ip)
  {
    if i :| 0 <= i < |a| && Belongs(a[i], k, names, name, ip) {
      assert a[i] in multiset(b);
      var j :| 0 <= j < |b| && b[j] == a[i];
    }
  }

  /** A name is there because of a source under it. */
  predicate NoEmptyName(cells: Cells) {
    forall name :: name in cells ==> cells[name] != map[]
  }

  lemma {:induction false} FilledNames(records: seq<Record>, k: Kind, names: map<string, string>)
    ensures NoEmptyName(Filled(records, k, names))
  {
    if records != [] {
      var r, rest := records[|records| - 1], records[..|records| - 1];
      FilledNames(rest, k, names);
      InsertedNames(Filled(rest, k, names), r, NameOf(names, r.sourceIp));
    }
  }

  lemma InsertedNames(cells: Cells, r: Record, name: string)
    requires NoEmptyName(cells)
    ensures NoEmptyName(Inserted(cells, r, name))
  {
    assert r.sourceIp in Inserted(cells, r, name)[name];
  }

  lemma SameTables(a: Cells, b: Cells)
    requires NoEmptyName(a) && NoEmptyName(b)
    requires forall name, ip :: Has(a, name, ip) <==> Has(b, name, ip)
    requires forall name, ip :: CellOf(a, name, ip) == CellOf(b, name, ip)
    ensures a == b
  {
    forall name
      ensures name in a <==> name in b
    {
      if name in a {
        var ip :| ip in a[name];
        assert Has(a, name, ip);
      }
      if name in b {
        var ip :| ip in b[name];
        assert Has(b, name, ip);
      }
    }
    forall name | name in a
      ensures a[name] == b[name]
    {
      assert forall ip :: ip in a[name] <==> Has(a, name, ip);
      assert forall ip :: ip in b[name] <==> Has(b, name, ip);
      assert forall ip :: ip in a[name] ==> a[name][ip] == CellOf(a, name, ip) == b[name][ip];
    }
  }

  /** The order in which the database returns the records changes nothing: neither what a bucket
      counts, nor which names and sources are in it. */
  lemma OrderDoesNotMatter(a: seq<Record>, b: seq<Record>, k: Kind, names: map<string, string>)
    requires multiset(a) == multiset(b)
    ensures Filled(a, k, names) == Filled(b, k, names)
  {
    FilledNames(a, k, names);
    FilledNames(b, k, names);
    forall name, ip
      ensures Has(Filled(a, k, names), name, ip) <==> Has(Filled(b, k, names), name, ip)
      ensures CellOf(Filled(a, k, names), name, ip) == CellOf(Filled(b, k, names), name, ip)
    {
      SameCells(a, b, k, names, name, ip);
    }
    SameTables(Filled(a, k, names), Filled(b, k, names));
  }

  predicate Consistent(k: Kind, c: Cell) {
    && c.spf.success + c.spf.failure == c.total
    && c.dkim.success + c.dkim.failure == c.total
    && match k
       case Aligned => c.spf.failure == 0 && c.dkim.failure == 0
       case Trusted => c.spf.success + c.dkim.success == c.total
       case Forwarded => c.spf.success == 0 && c.dkim.success == 0
       case Failed => c.spf.success == 0 && c.dkim.success == 0
  }

  lemma AddedConsistent(k: Kind, c: Cell, r: Record)
    requires Consistent(k, c) && Classify(r) == k
    ensures Consistent(k, Added(c, r))
  {
  }

  lemma StillConsistent(k: Kind, c: Cell, r: Record, after: Cell)
    requires Consistent(k, c) && Consistent(k, Added(c, r))
    requires after == c || after == Added(c, r)
    ensures Consistent(k, after)
  {
  }

  lemma ConsistentStep(k: Kind, before: Cells, r: Record, rname: string, name: string, ip: string)
    requires Consistent(k, CellOf(before, name, ip)) && Classify(r) == k
    ensures Consistent(k, CellOf(Inserted(before, r, rname), name, ip))
  {
    InsertedCell(before, r, rname, name, ip);
    var c, after := CellOf(before, name, ip), CellOf(Inserted(before, r, rname), name, ip);
    AddedConsistent(k, c, r);
    StillConsistent(k, c, r, after);
  }

  /** In every cell both checks account for the whole total, and the outcomes are those that
      the bucket stands for. */
  lemma {:induction false} CellsAreConsistent(records: seq<Record>, k: Kind, names: map<string, string>, name: string,
                                              ip: string)
    ensures Consistent(k, CellOf(Filled(records, k, names), name, ip))
  {
    if records != [] {
      var r, rest := records[|records| - 1], records[..|records| - 1];
      CellsAreConsistent(rest, k, names, name, ip);
      if Classify(r) == k {
        ConsistentStep(k, Filled(rest, k, names), r, NameOf(names, r.sourceIp), name, ip);
      }
    }
  }

  function OfSource(ip: string): Record -> bool {
    (r: Record) => r.sourceIp == ip
  }

  /** Nothing is lost and nothing counted twice: over the four buckets the totals of a source
      add up to the counts of its records. */
  lemma {:induction false} EveryRecordOnce(records: seq<Record>, names: map<string, string>, ip: string)
    ensures var name := NameOf(names, ip);
            && CellOf(Filled(records, Aligned, names), name, ip).total
               + CellOf(Filled(records, Trusted, names), name, ip).total
               + CellOf(Filled(records, Forwarded, names), name, ip).total
               + CellOf(Filled(records, Failed, names), name, ip).total
               == Sum(records, OfSource(ip))
  {
    var name := NameOf(names, ip);
    forall k: Kind
      ensures CellOf(Filled(records, k, names), name, ip).total == Sum(records, Select(k, names, name, ip))
    {
      CellIsPromised(records, k, names, name, ip);
    }
    SumByKind(records, names, ip);
  }

  lemma {:induction false} SumByKind(records: seq<Record>, names: map<string, string>, ip: string)
    ensures var name := NameOf(names, ip);
            && Sum(records, Select(Aligned, names, name, ip)) + Sum(records, Select(Trusted, names, name, ip))
               + Sum(records, Select(Forwarded, names, name, ip)) + Sum(records, Select(Failed, names, name, ip))
               == Sum(records, OfSource(ip))
  {
    if records != [] {
      SumByKind(records[1..], names, ip);
    }
  }
}
