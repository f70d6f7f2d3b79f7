/** src/LibAddressInput/AddressData.cs: the address value object and its Builder.

    The builder keeps a field map, a list of address lines and a language tag. An
    AddressData built from it snapshots the eight single-value fields and the
    language, but keeps a reference to the builder's own line list, so line edits made
    on the builder after the build are seen through the AddressData. */
module AddressDataModel {
  import opened Wrappers
  import opened Exceptions
  import opened Text
  import opened StringUtils
  import opened AddressFields
  import Dictionaries
  import opened Hashing

  // ---------------------------------------------------------------------------
  // NormalizeAddressLines
  // ---------------------------------------------------------------------------

  /** A line as NormalizeAddressLines yields it: stored form and no line break. */
  ghost predicate IsNormalLine(s: string) {
    IsStoredForm(s) && '\n' !in s
  }

  /** A contiguous part of a string without `c` does not contain `c` either. */
  lemma InfixAvoids(r: string, s: string, c: char)
    requires IsInfix(r, s) && c !in s
    ensures c !in r
  {
    var i, j :| 0 <= i <= j <= |s| && s[i..j] == r;
  }

  /** The values of the entries of `ts` that are not null, from index `i` on, in
      order. */
  function Present(ts: seq<Option<string>>, i: nat): (r: seq<string>)
    requires i <= |ts|
    ensures (forall q :: i <= q < |ts| && ts[q].Some? ==> IsNormalLine(ts[q].value)) ==>
      forall k :: 0 <= k < |r| ==> IsNormalLine(r[k])
    decreases |ts| - i
  {
    if i == |ts| then [] else (if ts[i].Some? then [ts[i].value] else []) + Present(ts, i + 1)
  }

  /** `f` applied to every element of `xs`, in order. */
  function Map<A, B>(f: A -> B, xs: seq<A>): (r: seq<B>)
    ensures |r| == |xs|
  {
    seq(|xs|, k requires 0 <= k < |xs| => f(xs[k]))
  }

  /** Element `k` of the mapped sequence is `f` of element `k`. */
  lemma MapAt<A, B>(f: A -> B, xs: seq<A>, k: nat)
    requires k < |xs|
    ensures Map(f, xs)[k] == f(xs[k])
  {
  }

  /** Mapping works element by element, so it distributes over concatenation. */
  lemma MapAppend<A, B>(f: A -> B, p: seq<A>, q: seq<A>)
    ensures Map(f, p + q) == Map(f, p) + Map(f, q)
  {
    forall k | 0 <= k < |p + q|
      ensures Map(f, p + q)[k] == (Map(f, p) + Map(f, q))[k]
    {
      MapAt(f, p + q, k);
      if k < |p| {
        MapAt(f, p, k);
        assert (p + q)[k] == p[k];
      } else {
        MapAt(f, q, k - |p|);
        assert (p + q)[k] == q[k - |p|];
      }
    }
  }

  /** One piece of a split line, trimmed to null. */
  function TrimPiece(piece: string): Option<string> {
    TrimToNull(Some(piece))
  }

  /** Every piece of a split line, trimmed to null. */
  function TrimPieces(pieces: seq<string>): (ts: seq<Option<string>>)
    ensures |ts| == |pieces|
  {
    Map(TrimPiece, pieces)
  }

  /** Entry `q` of TrimPieces is piece `q` trimmed to null. */
  lemma TrimPiecesAt(pieces: seq<string>, q: nat)
    requires q < |pieces|
    ensures TrimPieces(pieces)[q] == TrimToNull(Some(pieces[q]))
  {
    MapAt(TrimPiece, pieces, q);
  }

  /** A piece without a line break trims to a normal line, or to null. */
  lemma TrimPiecesAreNormal(pieces: seq<string>)
    requires forall q :: 0 <= q < |pieces| ==> '\n' !in pieces[q]
    ensures forall q :: 0 <= q < |pieces| && TrimPieces(pieces)[q].Some? ==> IsNormalLine(TrimPieces(pieces)[q].value)
  {
    forall q | 0 <= q < |pieces| && TrimPieces(pieces)[q].Some?
      ensures IsNormalLine(TrimPieces(pieces)[q].value)
    {
      TrimPiecesAt(pieces, q);
      InfixAvoids(TrimPieces(pieces)[q].value, pieces[q], '\n');
    }
  }

  /** The inner loop over the pieces of a split line: trim each piece and keep the
      non-empty ones, in order. */
  function KeepTrimmed(pieces: seq<string>): (r: seq<string>)
    requires forall q :: 0 <= q < |pieces| ==> '\n' !in pieces[q]
    ensures forall k :: 0 <= k < |r| ==> IsNormalLine(r[k])
  {
    TrimPiecesAreNormal(pieces);
    Present(TrimPieces(pieces), 0)
  }

  /** What one entry of the input contributes to NormalizeAddressLines. */
  function NormalizeLine(line: Option<string>): (r: seq<string>)
    ensures forall k :: 0 <= k < |r| ==> IsNormalLine(r[k])
  {
    if IsNullOrEmpty(line) then []
    else if '\n' in line.value then KeepTrimmed(Split(line.value, '\n'))
    else
      match TrimToNull(line)
      case Some(t) => InfixAvoids(t, line.value, '\n'); [t]
      case None => []
  }

  /** The private static helper of the builder: skips null and empty lines, splits
      the others at '\n', trims every piece and drops the pieces that end up empty,
      keeping the input order. */
  function NormalizeAddressLines(lines: seq<Option<string>>): (r: seq<string>)
    ensures forall k :: 0 <= k < |r| ==> IsNormalLine(r[k])
  {
    if lines == [] then [] else NormalizeLine(lines[0]) + NormalizeAddressLines(lines[1..])
  }

  /** Strings seen as non-null entries of a line list. */
  function Lift(xs: seq<string>): (r: seq<Option<string>>)
    ensures |r| == |xs| && forall k :: 0 <= k < |xs| ==> r[k] == Some(xs[k])
  {
    seq(|xs|, k requires 0 <= k < |xs| => Some(xs[k]))
  }

  /** Normalisation works line by line: it distributes over concatenation, so lines
      are never reordered and never merged across entries. */
  lemma {:induction false} NormalizeAppend(a: seq<Option<string>>, b: seq<Option<string>>)
    ensures NormalizeAddressLines(a + b) == NormalizeAddressLines(a) + NormalizeAddressLines(b)
  {
    if a == [] {
      assert a + b == b;
    } else {
      assert (a + b)[1..] == a[1..] + b;
      NormalizeAppend(a[1..], b);
    }
  }

  /** Lines that are already normal pass through unchanged. */
  lemma {:induction false} NormalizeKeepsNormalLines(xs: seq<string>)
    requires forall k :: 0 <= k < |xs| ==> IsNormalLine(xs[k])
    ensures NormalizeAddressLines(Lift(xs)) == xs
  {
    if xs != [] {
      TrimToNullKeepsStoredForm(xs[0]);
      assert NormalizeLine(Some(xs[0])) == [xs[0]];
      assert Lift(xs)[1..] == Lift(xs[1..]);
      NormalizeKeepsNormalLines(xs[1..]);
    }
  }

  /** Normalising a normalised list changes nothing. */
  lemma NormalizeIdempotent(lines: seq<Option<string>>)
    ensures NormalizeAddressLines(Lift(NormalizeAddressLines(lines))) == NormalizeAddressLines(lines)
  {
    NormalizeKeepsNormalLines(NormalizeAddressLines(lines));
  }

  /** `t` is what TrimToNull makes of one of the pieces `line` splits into at '\n'. */
  ghost predicate IsTrimmedPieceOf(t: string, line: string) {
    exists p :: 0 <= p < |Split(line, '\n')| && TrimToNull(Some(Split(line, '\n')[p])) == Some(t)
  }

  /** Every entry Present yields is the value of an entry of `ts` at index `q`. */
  lemma {:induction false} PresentFrom(ts: seq<Option<string>>, i: nat, k: nat) returns (q: nat)
    requires i <= |ts| && k < |Present(ts, i)|
    ensures i <= q < |ts| && ts[q] == Some(Present(ts, i)[k])
    decreases |ts| - i
  {
    var n := if ts[i].Some? then 1 else 0;
    if k < n {
      q := i;
    } else {
      assert Present(ts, i)[k] == Present(ts, i + 1)[k - n];
      q := PresentFrom(ts, i + 1, k - n);
    }
  }

  /** Present drops only nulls: the value of every non-null entry from `i` on is
      yielded, at index `k`. */
  lemma {:induction false} PresentKeeps(ts: seq<Option<string>>, i: nat, q: nat) returns (k: nat)
    requires i <= q < |ts| && ts[q].Some?
    ensures k < |Present(ts, i)| && Present(ts, i)[k] == ts[q].value
    decreases q - i
  {
    var n := if ts[i].Some? then 1 else 0;
    if q == i {
      k := 0;
    } else {
      var m := PresentKeeps(ts, i + 1, q);
      k := m + n;
      assert Present(ts, i)[k] == Present(ts, i + 1)[m];
    }
  }

  /** Present from index |a| + j of a + b is Present of b from j. */
  lemma {:induction false} PresentShift(a: seq<Option<string>>, b: seq<Option<string>>, j: nat)
    requires j <= |b|
    ensures Present(a + b, |a| + j) == Present(b, j)
    decreases |b| - j
  {
    if j < |b| {
      assert (a + b)[|a| + j] == b[j];
      PresentShift(a, b, j + 1);
    }
  }

  /** Present works entry by entry: what `a` yields comes first, in order, followed
      by what `b` yields, so no entry is reordered, repeated or merged. */
  lemma {:induction false} PresentAppend(a: seq<Option<string>>, b: seq<Option<string>>, i: nat)
    requires i <= |a|
    ensures Present(a + b, i) == Present(a, i) + Present(b, 0)
    decreases |a| - i
  {
    if i == |a| {
      PresentShift(a, b, 0);
    } else {
      assert (a + b)[i] == a[i];
      PresentAppend(a, b, i + 1);
    }
  }

  /** A single entry yields its value once, or nothing when it is null. */
  lemma PresentSingle(t: Option<string>)
    ensures Present([t], 0) == (if t.Some? then [t.value] else [])
  {
    assert Present([t], 1) == [];
  }

  /** Trimming the pieces works piece by piece. */
  lemma TrimPiecesAppend(p: seq<string>, q: seq<string>)
    ensures TrimPieces(p + q) == TrimPieces(p) + TrimPieces(q)
  {
    MapAppend(TrimPiece, p, q);
  }

  /** The inner loop works piece by piece: the lines of `p` come first, in order,
      followed by those of `q`. */
  lemma KeepTrimmedAppend(p: seq<string>, q: seq<string>)
    requires forall k :: 0 <= k < |p| ==> '\n' !in p[k]
    requires forall k :: 0 <= k < |q| ==> '\n' !in q[k]
    ensures KeepTrimmed(p + q) == KeepTrimmed(p) + KeepTrimmed(q)
  {
    TrimPiecesAppend(p, q);
    PresentAppend(TrimPieces(p), TrimPieces(q), 0);
  }

  /** A single piece gives its trimmed value once, or nothing when it is blank. */
  lemma KeepTrimmedSingle(piece: string)
    requires '\n' !in piece
    ensures var t := TrimToNull(Some(piece));
      KeepTrimmed([piece]) == (if t.Some? then [t.value] else [])
  {
    TrimPiecesAt([piece], 0);
    assert TrimPieces([piece]) == [TrimToNull(Some(piece))];
    PresentSingle(TrimToNull(Some(piece)));
  }

  /** Every piece KeepTrimmed keeps is what TrimToNull makes of the input piece at
      index `p`. */
  lemma KeepTrimmedFromPieces(pieces: seq<string>, k: nat) returns (p: nat)
    requires forall q :: 0 <= q < |pieces| ==> '\n' !in pieces[q]
    requires k < |KeepTrimmed(pieces)|
    ensures p < |pieces| && TrimToNull(Some(pieces[p])) == Some(KeepTrimmed(pieces)[k])
  {
    p := PresentFrom(TrimPieces(pieces), 0, k);
    TrimPiecesAt(pieces, p);
  }

  /** Every line one entry contributes is what TrimToNull makes of the piece at
      index `p` of that entry's split. */
  lemma NormalizeLineFromPieces(line: Option<string>, k: nat) returns (p: nat)
    requires k < |NormalizeLine(line)|
    ensures line.Some? && p < |Split(line.value, '\n')|
    ensures TrimToNull(Some(Split(line.value, '\n')[p])) == Some(NormalizeLine(line)[k])
  {
    if '\n' in line.value {
      p := KeepTrimmedFromPieces(Split(line.value, '\n'), k);
    } else {
      p := 0;
    }
  }

  /** Where output line `k` comes from: piece `p` of input entry `j`. */
  lemma {:induction false} NormalizeOutputSource(lines: seq<Option<string>>, k: nat) returns (j: nat, p: nat)
    requires k < |NormalizeAddressLines(lines)|
    ensures j < |lines| && lines[j].Some? && p < |Split(lines[j].value, '\n')|
    ensures TrimToNull(Some(Split(lines[j].value, '\n')[p])) == Some(NormalizeAddressLines(lines)[k])
  {
    var head := NormalizeLine(lines[0]);
    var tail := NormalizeAddressLines(lines[1..]);
    assert NormalizeAddressLines(lines) == head + tail;
    if k < |head| {
      j := 0;
      p := NormalizeLineFromPieces(lines[0], k);
    } else {
      assert NormalizeAddressLines(lines)[k] == tail[k - |head|];
      var i;
      i, p := NormalizeOutputSource(lines[1..], k - |head|);
      assert lines[1..][i] == lines[i + 1];
      j := i + 1;
    }
  }

  /** Normalisation invents nothing: every output line is a '\n'-piece of some
      non-null input entry, trimmed. */
  lemma NormalizeOutputFromInput(lines: seq<Option<string>>, k: nat)
    requires k < |NormalizeAddressLines(lines)|
    ensures exists j :: 0 <= j < |lines| && lines[j].Some? && IsTrimmedPieceOf(NormalizeAddressLines(lines)[k], lines[j].value)
  {
    var j, p := NormalizeOutputSource(lines, k);
    assert IsTrimmedPieceOf(NormalizeAddressLines(lines)[k], lines[j].value);
  }

  /** KeepTrimmed drops only blank pieces: every piece that does not trim to null
      is kept, at index `k` of the output. */
  lemma KeepTrimmedKeeps(pieces: seq<string>, p: nat) returns (k: nat)
    requires p < |pieces|
    requires forall q :: 0 <= q < |pieces| ==> '\n' !in pieces[q]
    requires TrimToNull(Some(pieces[p])).Some?
    ensures k < |KeepTrimmed(pieces)| && KeepTrimmed(pieces)[k] == TrimToNull(Some(pieces[p])).value
  {
    TrimPiecesAt(pieces, p);
    k := PresentKeeps(TrimPieces(pieces), 0, p);
  }

  /** Normalisation loses nothing: every non-blank '\n'-piece of a non-null input
      entry, trimmed, is an output line. */
  lemma {:induction false} NormalizeKeepsEveryPiece(lines: seq<Option<string>>, j: nat, p: nat)
    requires j < |lines| && lines[j].Some? && p < |Split(lines[j].value, '\n')|
    requires TrimToNull(Some(Split(lines[j].value, '\n')[p])).Some?
    ensures TrimToNull(Some(Split(lines[j].value, '\n')[p])).value in NormalizeAddressLines(lines)
  {
    assert NormalizeAddressLines(lines) == NormalizeLine(lines[0]) + NormalizeAddressLines(lines[1..]);
    if j > 0 {
      assert lines[1..][j - 1] == lines[j];
      NormalizeKeepsEveryPiece(lines[1..], j - 1, p);
    } else {
      var line := lines[0].value;
      if '\n' in line {
        var k := KeepTrimmedKeeps(Split(line, '\n'), p);
      } else {
        assert Split(line, '\n') == [line];
      }
    }
  }

  /** The output lines are exactly the trimmed, non-blank '\n'-pieces of the non-null
      input entries. */
  lemma NormalizeOutputIsTrimmedPieces(lines: seq<Option<string>>, t: string)
    ensures t in NormalizeAddressLines(lines) <==>
      exists j :: 0 <= j < |lines| && lines[j].Some? && IsTrimmedPieceOf(t, lines[j].value)
  {
    var out := NormalizeAddressLines(lines);
    if t in out {
      var k :| 0 <= k < |out| && out[k] == t;
      NormalizeOutputFromInput(lines, k);
    }
    if exists j :: 0 <= j < |lines| && lines[j].Some? && IsTrimmedPieceOf(t, lines[j].value) {
      var j :| 0 <= j < |lines| && lines[j].Some? && IsTrimmedPieceOf(t, lines[j].value);
      var p :| 0 <= p < |Split(lines[j].value, '\n')| && TrimToNull(Some(Split(lines[j].value, '\n')[p])) == Some(t);
      NormalizeKeepsEveryPiece(lines, j, p);
    }
  }

  /** The pieces of "a\nb\n\nc" are "a", "b", "" and "c". */
  lemma SplitExample()
    ensures Split("a\nb\n\nc", '\n') == ["a", "b", "", "c"]
  {
    var parts := ["a", "b", "", "c"];
    assert Join(parts[3..], '\n') == "c";
    assert Join(parts[2..], '\n') == "\nc";
    assert Join(parts[1..], '\n') == "b\n\nc";
    assert Join(parts, '\n') == "a\nb\n\nc";
    SplitJoin(parts, '\n');
  }

  /** "a", "b" and "c" trim to themselves, and "" trims to null. */
  lemma TrimToNullExample()
    ensures TrimToNull(Some("a")) == Some("a") && TrimToNull(Some("b")) == Some("b")
    ensures TrimToNull(Some("")) == None && TrimToNull(Some("c")) == Some("c")
  {
    TrimToNullKeepsStoredForm("a");
    TrimToNullKeepsStoredForm("b");
    TrimToNullKeepsStoredForm("c");
  }

  /** The pieces "a", "b", "" and "c", each trimmed to null. */
  lemma TrimPiecesExample()
    ensures var ts := TrimPieces(["a", "b", "", "c"]);
      ts[0] == Some("a") && ts[1] == Some("b") && ts[2] == None && ts[3] == Some("c")
  {
    TrimToNullExample();
    var pieces := ["a", "b", "", "c"];
    TrimPiecesAt(pieces, 0);
    TrimPiecesAt(pieces, 1);
    TrimPiecesAt(pieces, 2);
    TrimPiecesAt(pieces, 3);
  }

  /** Present skips the null entry. */
  lemma PresentExample(ts: seq<Option<string>>)
    requires |ts| == 4 && ts[0] == Some("a") && ts[1] == Some("b") && ts[2] == None && ts[3] == Some("c")
    ensures Present(ts, 0) == ["a", "b", "c"]
  {
    assert Present(ts, 3) == ["c"];
    assert Present(ts, 2) == ["c"];
    assert Present(ts, 1) == ["b", "c"];
  }

  /** Of the pieces "a", "b", "" and "c", the blank one is dropped. */
  lemma KeepTrimmedExample()
    ensures KeepTrimmed(["a", "b", "", "c"]) == ["a", "b", "c"]
  {
    TrimPiecesExample();
    PresentExample(TrimPieces(["a", "b", "", "c"]));
  }

  /** An entry holding several lines is split, and its blank line is dropped. */
  lemma NormalizeLineExample()
    ensures NormalizeLine(Some("a\nb\n\nc")) == ["a", "b", "c"]
  {
    assert "a\nb\n\nc"[1] == '\n';
    SplitExample();
    KeepTrimmedExample();
  }

  /** The same entry as the only element of a line list. */
  lemma NormalizeSplitsAndDropsBlank()
    ensures NormalizeAddressLines([Some("a\nb\n\nc")]) == ["a", "b", "c"]
  {
    NormalizeLineExample();
    assert [Some("a\nb\n\nc")][1..] == [];
  }

  // ---------------------------------------------------------------------------
  // The builder's field map
  // ---------------------------------------------------------------------------

  /** Builder.GetValue on a field map: the stored value, or null. */
  function Lookup(fields: map<AddressField, string>, f: AddressField): Option<string> {
    if f in fields then Some(fields[f]) else None
  }

  /** The invariant of the builder's map: only single-value fields, each holding a
      non-empty value without leading or trailing white space. */
  ghost predicate WellFormedFields(fields: map<AddressField, string>) {
    forall f :: f in fields ==> f in SingleValueFields && IsStoredForm(fields[f])
  }

  /** The effect of the builder's private Set(field, value) on the field map. A
      single-value field gets the trimmed value, or is removed when the value is null
      or white space; a field that already holds a value cannot be given another one
      (Dictionary.Add rejects the key). No other field changes. */
  function Assign(fields: map<AddressField, string>, f: AddressField, value: Option<string>)
    : (r: Result<map<AddressField, string>, Exception>)
    ensures r.Failure? <==> f in SingleValueFields && f in fields && TrimToNull(value).Some?
    ensures r.Failure? ==> r.error == DuplicateKey
    ensures r.Success? ==> Lookup(r.value, f) == if f in SingleValueFields then TrimToNull(value) else Lookup(fields, f)
    ensures r.Success? ==> forall g :: g != f ==> Lookup(r.value, g) == Lookup(fields, g)
    ensures r.Success? && WellFormedFields(fields) ==> WellFormedFields(r.value)
  {
    if f !in SingleValueFields then Success(fields)
    else
      match TrimToNull(value)
      case None => Success(fields - {f})
      case Some(t) => Dictionaries.Add(fields, f, t)
  }

  /** Trimming and then dropping a blank result, as the builder's private Set does
      step by step, is TrimToNull. */
  lemma TrimThenBlankIsTrimToNull(value: Option<string>, v: Option<string>)
    requires v == (var t := if value.Some? then Some(Trim(value.value)) else None;
                   if IsNullOrWhiteSpace(t) then None else t)
    ensures v == TrimToNull(value)
  {
    if value.Some? {
      TrimmedBlankIsEmpty(Trim(value.value));
    }
  }

  /** Clearing a field (null or white space) always succeeds, and a later non-blank
      value for that field is then accepted. */
  lemma ClearThenSet(fields: map<AddressField, string>, f: AddressField, blank: Option<string>, value: Option<string>)
    requires f in SingleValueFields
    requires IsNullOrWhiteSpace(blank) && TrimToNull(value).Some?
    ensures Assign(fields, f, blank).Success?
    ensures Assign(Assign(fields, f, blank).value, f, value).Success?
    ensures Lookup(Assign(Assign(fields, f, blank).value, f, value).value, f) == TrimToNull(value)
  {
  }

  /** What Set(a) stores for the single-value field `f`: `a`'s value, trimmed to null. */
  function StoredValue(a: AddressData, f: AddressField): Option<string>
    requires f in SingleValueFields
  {
    TrimToNull(a.GetFieldValue(f).value)
  }

  /** The field map a Builder holds after Set(a) has copied the fields `fs`, one
      after another, into an empty map. */
  function Snapshot(a: AddressData, fs: seq<AddressField>): map<AddressField, string>
    requires forall g :: g in fs ==> g in SingleValueFields
  {
    if fs == [] then map[]
    else
      var f := fs[|fs| - 1];
      var rest := Snapshot(a, fs[..|fs| - 1]);
      if StoredValue(a, f).Some? then rest[f := StoredValue(a, f).value] else rest - {f}
  }

  /** After copying `fs`, a field holds `a`'s value trimmed to null if it is among
      `fs`, and nothing otherwise. */
  lemma {:induction false} SnapshotLookup(a: AddressData, fs: seq<AddressField>, g: AddressField)
    requires forall h :: h in fs ==> h in SingleValueFields
    ensures Lookup(Snapshot(a, fs), g) == if g in fs then StoredValue(a, g) else None
  {
    if fs != [] {
      var init := fs[..|fs| - 1];
      assert fs == init + [fs[|fs| - 1]];
      SnapshotLookup(a, init, g);
    }
  }

  /** Set(a) copies the fields one at a time into a map that does not hold them
      yet, so no Dictionary.Add fails. */
  lemma SnapshotExtend(a: AddressData, fs: seq<AddressField>, f: AddressField)
    requires forall g :: g in fs ==> g in SingleValueFields
    requires f in SingleValueFields && f !in fs
    ensures Assign(Snapshot(a, fs), f, a.GetFieldValue(f).value) == Success(Snapshot(a, fs + [f]))
  {
    SnapshotLookup(a, fs, f);
    assert (fs + [f])[..|fs|] == fs;
  }

  /** Set(a) visits each single-value field once. */
  lemma SingleValueFieldsPrefix(i: nat)
    requires i < |SingleValueFields|
    ensures forall g :: g in SingleValueFields[..i] ==> g in SingleValueFields
    ensures SingleValueFields[i] !in SingleValueFields[..i]
    ensures SingleValueFields[..i + 1] == SingleValueFields[..i] + [SingleValueFields[i]]
  {
    SingleValueFieldsDistinct();
  }

  /** For an address whose fields are in stored form, the snapshot holds exactly
      its non-null fields. */
  lemma SnapshotOfValid(a: AddressData, f: AddressField)
    requires a.Valid() && f in SingleValueFields
    ensures Lookup(Snapshot(a, SingleValueFields), f) == a.GetFieldValue(f).value
  {
    SnapshotLookup(a, SingleValueFields, f);
    var v := a.GetFieldValue(f).value;
    assert StoredOrAbsent(v);
    if v.Some? {
      TrimToNullKeepsStoredForm(v.value);
    }
  }

  // ---------------------------------------------------------------------------
  // List<string>, as shared between a Builder and the AddressData built from it
  // ---------------------------------------------------------------------------

  class LineList {
    var items: seq<Option<string>>

    constructor()
      ensures items == []
    {
      items := [];
    }

    method Clear()
      modifies this
      ensures items == []
    {
      items := [];
    }

    method AddRange(xs: seq<Option<string>>)
      modifies this
      ensures items == old(items) + xs
    {
      items := items + xs;
    }

    method Add(x: Option<string>)
      modifies this
      ensures items == old(items) + [x]
    {
      items := items + [x];
    }

    /** Enumerable.Any() */
    predicate Any()
      reads this
    {
      |items| > 0
    }
  }

  // ---------------------------------------------------------------------------
  // AddressData.Builder
  // ---------------------------------------------------------------------------

  class Builder {
    var fields: map<AddressField, string>
    const lines: LineList   // the `AddressLines` list: one object for the builder's whole life
    var language: Option<string>

    ghost predicate Valid()
      reads this
    {
      WellFormedFields(fields)
    }

    constructor()
      ensures Valid() && fresh(lines)
      ensures fields == map[] && lines.items == [] && language == None
    {
      fields := map[];
      lines := new LineList();
      language := None;
    }

    /** The stored value of a field, or null; a stored value is never blank. */
    function GetValue(f: AddressField): (r: Option<string>)
      reads this
      requires Valid()
      ensures r.Some? ==> f in SingleValueFields && IsStoredForm(r.value)
      ensures r.Some? <==> f in fields
    {
      Lookup(fields, f)
    }

    /** The outcome `r` of Set(f, value) on a builder whose map was `before`. */
    ghost predicate Assigned(before: map<AddressField, string>, f: AddressField, value: Option<string>, r: Outcome<Exception>)
      reads this
    {
      match Assign(before, f, value)
      case Success(after) => r == Pass && fields == after
      case Failure(e) => r == Fail(e) && fields == before
    }

    /** The private Set(field, value) every field setter goes through. */
    method SetField(f: AddressField, value: Option<string>) returns (r: Outcome<Exception>)
      requires Valid()
      modifies this
      ensures Valid()
      ensures Assigned(old(fields), f, value, r)
      ensures language == old(language)
    {
      r := Pass;
      if f in SingleValueFields {
        var v := if value.Some? then Some(Trim(value.value)) else None;
        if IsNullOrWhiteSpace(v) {
          v := None;
        }
        TrimThenBlankIsTrimToNull(value, v);
        if v.None? {
          assert Assign(fields, f, value) == Success(fields - {f});
          fields := fields - {f};
        } else {
          assert Assign(fields, f, value) == Dictionaries.Add(fields, f, v.value);
          match Dictionaries.Add(fields, f, v.value)
          case Success(m) =>
            fields := m;
          case Failure(e) =>
            r := Fail(e);
        }
      } else {
        assert Assign(fields, f, value) == Success(fields);
      }
    }

    /** SetCountry rejects null and "" before touching any state; every other value,
        white space included, goes to SetField. */
    method SetCountry(country: Option<string>) returns (r: Outcome<Exception>)
      requires Valid()
      modifies this
      ensures Valid() && language == old(language)
      ensures IsNullOrEmpty(country) ==> r == Fail(ValueNullOrEmpty) && fields == old(fields)
      ensures !IsNullOrEmpty(country) ==> Assigned(old(fields), Country, country, r)
    {
      var checked := CheckNotNull(country);
      match checked
      case Failure(e) =>
        r := Fail(e);
      case Success(c) =>
        r := SetField(Country, Some(c));
    }

    method SetAdminArea(adminArea: Option<string>) returns (r: Outcome<Exception>)
      requires Valid()
      modifies this
      ensures Valid() && language == old(language)
      ensures Assigned(old(fields), AdminArea, adminArea, r)
    {
      r := SetField(AdminArea, adminArea);
    }

    method SetLocality(locality: Option<string>) returns (r: Outcome<Exception>)
      requires Valid()
      modifies this
      ensures Valid() && language == old(language)
      ensures Assigned(old(fields), Locality, locality, r)
    {
      r := SetField(Locality, locality);
    }

    method SetDependentLocality(dependentLocality: Option<string>) returns (r: Outcome<Exception>)
      requires Valid()
      modifies this
      ensures Valid() && language == old(language)
      ensures Assigned(old(fields), DependentLocality, dependentLocality, r)
    {
      r := SetField(DependentLocality, dependentLocality);
    }

    method SetPostalCode(postalCode: Option<string>) returns (r: Outcome<Exception>)
      requires Valid()
      modifies this
      ensures Valid() && language == old(language)
      ensures Assigned(old(fields), PostalCode, postalCode, r)
    {
      r := SetField(PostalCode, postalCode);
    }

    method SetSortingCode(sortingCode: Option<string>) returns (r: Outcome<Exception>)
      requires Valid()
      modifies this
      ensures Valid() && language == old(language)
      ensures Assigned(old(fields), SortingCode, sortingCode, r)
    {
      r := SetField(SortingCode, sortingCode);
    }

    method SetOrganization(organization: Option<string>) returns (r: Outcome<Exception>)
      requires Valid()
      modifies this
      ensures Valid() && language == old(language)
      ensures Assigned(old(fields), Organization, organization, r)
    {
      r := SetField(Organization, organization);
    }

    method SetRecipient(recipient: Option<string>) returns (r: Outcome<Exception>)
      requires Valid()
      modifies this
      ensures Valid() && language == old(language)
      ensures Assigned(old(fields), Recipient, recipient, r)
    {
      r := SetField(Recipient, recipient);
    }

    /** Stores the language tag verbatim, null included. */
    method SetLanguageCode(languageCode: Option<string>)
      modifies this
      ensures language == languageCode && fields == old(fields)
    {
      language := languageCode;
    }

    /** Replaces the line list's contents with `newLines`, entry for entry. */
    method SetAddressLines(newLines: seq<Option<string>>)
      modifies lines
      ensures lines.items == newLines
      ensures unchanged(this)
    {
      lines.Clear();
      lines.AddRange(newLines);
    }

    /** Appends one raw entry to the line list. */
    method AddAddressLines(value: Option<string>)
      modifies lines
      ensures lines.items == old(lines.items) + [value]
      ensures unchanged(this)
    {
      lines.Add(value);
    }

    /** Clears the line list and then normalises the (now empty) list into it, so the
        list always ends up empty; `value` is never read. */
    method SetAddress(value: Option<string>)
      modifies lines
      ensures lines.items == []
      ensures unchanged(this)
    {
      lines.Clear();
      lines.AddRange(Lift(NormalizeAddressLines(lines.items)));
    }

    /** Set(AddressData): clears the map and re-sets every single-value field from
        `a`, then copies `a`'s lines and language. When `a` shares this builder's list
        (it was built from this builder), clearing the list first leaves nothing to
        copy, so the list ends up empty. */
    method Set(a: AddressData)
      requires Valid()
      modifies this, lines
      ensures Valid()
      ensures fields == Snapshot(a, SingleValueFields)
      ensures lines.items == if a.lines == lines then [] else old(a.lines.items)
      ensures language == a.languageCode
    {
      fields := map[];
      for i := 0 to |SingleValueFields|
        invariant Valid()
        invariant fields == Snapshot(a, SingleValueFields[..i])
      {
        var f := SingleValueFields[i];
        SingleValueFieldsPrefix(i);
        SnapshotExtend(a, SingleValueFields[..i], f);
        var v := a.GetFieldValue(f);
        var r := SetField(f, v.value);
      }
      assert SingleValueFields[..|SingleValueFields|] == SingleValueFields;
      lines.Clear();
      lines.AddRange(a.lines.items);
      SetLanguageCode(a.languageCode);
    }
  }

  // ---------------------------------------------------------------------------
  // AddressData
  // ---------------------------------------------------------------------------

  /** A field of an AddressData: absent, or a value in stored form. */
  ghost predicate StoredOrAbsent(v: Option<string>) {
    v.None? || IsStoredForm(v.value)
  }

  /** C#'s `x == null ? y == null : x.Equals(y)` on strings. */
  function NullAwareEquals(x: Option<string>, y: Option<string>): (r: bool)
    ensures r <==> x == y
  {
    if x.None? then y.None? else y.Some? && x.value == y.value
  }

  /** One step of GetHashCode: `31 * result + hash`, in unchecked 32-bit arithmetic. */
  function Step(acc: bv32, h: bv32): bv32 {
    31 * acc + h
  }

  /** The running `result` of GetHashCode after the components `xs`. */
  function FoldHash(xs: seq<Option<string>>, strHash: string -> bv32): bv32 {
    if xs == [] then 17 else Step(FoldHash(xs[..|xs| - 1], strHash), HashOrZero(xs[|xs| - 1], strHash))
  }

  class AddressData {
    const postalCountry: Option<string>
    const administrativeArea: Option<string>
    const locality: Option<string>
    const dependentLocality: Option<string>
    const postalCode: Option<string>
    const sortingCode: Option<string>
    const organization: Option<string>
    const recipient: Option<string>
    const lines: LineList   // the builder's own list, not a copy
    const languageCode: Option<string>

    /** Every single-value field is absent or in stored form. */
    ghost predicate Valid() {
      && StoredOrAbsent(postalCountry) && StoredOrAbsent(administrativeArea)
      && StoredOrAbsent(locality) && StoredOrAbsent(dependentLocality)
      && StoredOrAbsent(postalCode) && StoredOrAbsent(sortingCode)
      && StoredOrAbsent(organization) && StoredOrAbsent(recipient)
    }

    /** The build: each single-value field gets the builder's value or null, the
        language is copied, and the line list is shared with the builder. */
    constructor(builder: Builder)
      requires builder.Valid()
      ensures Valid()
      ensures forall f :: f in SingleValueFields ==> GetFieldValue(f) == Success(builder.GetValue(f))
      ensures lines == builder.lines && languageCode == builder.language
    {
      postalCountry := builder.GetValue(Country);
      administrativeArea := builder.GetValue(AdminArea);
      locality := builder.GetValue(Locality);
      dependentLocality := builder.GetValue(DependentLocality);
      postalCode := builder.GetValue(PostalCode);
      sortingCode := builder.GetValue(SortingCode);
      organization := builder.GetValue(Organization);
      recipient := builder.GetValue(Recipient);
      lines := builder.lines;
      languageCode := builder.language;
      new;
      forall f | f in SingleValueFields
        ensures GetFieldValue(f) == Success(builder.GetValue(f))
      {
        SingleValueFieldsAreAllButStreetAddress(f);
      }
    }

    /** The private GetFieldValue: the value of a single-value field; StreetAddress
        cannot be read by key. */
    function GetFieldValue(f: AddressField): (r: Result<Option<string>, Exception>)
      ensures r.Failure? <==> f !in SingleValueFields
      ensures r.Failure? ==> r.error == MultiValueFieldNotSupported
      ensures r.Success? && Valid() ==> StoredOrAbsent(r.value)
    {
      match f
      case AdminArea => Success(administrativeArea)
      case Country => Success(postalCountry)
      case DependentLocality => Success(dependentLocality)
      case Locality => Success(locality)
      case Organization => Success(organization)
      case PostalCode => Success(postalCode)
      case Recipient => Success(recipient)
      case SortingCode => Success(sortingCode)
      case StreetAddress => Failure(MultiValueFieldNotSupported)
    }

    /** The nine scalar components, in the order GetHashCode folds them. */
    function Scalars(): seq<Option<string>> {
      [postalCountry, administrativeArea, locality, dependentLocality, postalCode,
       sortingCode, organization, recipient, languageCode]
    }

    /** The line lists count as equal when both are empty or both are one object. */
    ghost predicate SameLines(other: AddressData)
      reads lines, other.lines
    {
      lines == other.lines || (|lines.items| == 0 && |other.lines.items| == 0)
    }

    /** Equals(object): false for anything that is not an AddressData; otherwise the
        nine scalars must be equal and the line lists must be both empty or the same
        list object (the contents of two distinct non-empty lists are never compared). */
    function Equals(obj: Obj<AddressData>): (r: bool)
      reads lines, if obj.Of? then {obj.value.lines} else {}
      ensures r <==> obj.Of? && Scalars() == obj.value.Scalars() && SameLines(obj.value)
    {
      if obj == Of(this) then true
      else
        match obj
        case Foreign => false
        case Of(other) =>
          && NullAwareEquals(postalCountry, other.postalCountry)
          && (if !lines.Any() then !other.lines.Any() else lines == other.lines)
          && NullAwareEquals(administrativeArea, other.administrativeArea)
          && NullAwareEquals(locality, other.locality)
          && NullAwareEquals(dependentLocality, other.dependentLocality)
          && NullAwareEquals(postalCode, other.postalCode)
          && NullAwareEquals(sortingCode, other.sortingCode)
          && NullAwareEquals(organization, other.organization)
          && NullAwareEquals(recipient, other.recipient)
          && NullAwareEquals(languageCode, other.languageCode)
    }

    /** The value GetHashCode computes, given the hash of a string and the
        identity hash of a list object. */
    function Hash(strHash: string -> bv32, listHash: LineList -> bv32): bv32
      reads lines
    {
      Step(FoldHash(Scalars(), strHash), if !lines.Any() then 0 else listHash(lines))
    }

    /** GetHashCode: starts at 17 and folds `31 * result + hash` over the nine
        scalars and then the line list, wrapping at 32 bits. */
    method GetHashCode(strHash: string -> bv32, listHash: LineList -> bv32) returns (h: bv32)
      ensures h == Hash(strHash, listHash)
    {
      var result: bv32 := 17;
      var components := Scalars();
      for i := 0 to |components|
        invariant result == FoldHash(components[..i], strHash)
      {
        assert components[..i + 1][..i] == components[..i];
        result := Step(result, HashOrZero(components[i], strHash));
      }
      assert components[..|components|] == components;
      result := Step(result, if !lines.Any() then 0 else listHash(lines));
      h := result;
    }
  }

  // ---------------------------------------------------------------------------
  // Properties of AddressData equality and hashing
  // ---------------------------------------------------------------------------

  lemma EqualsReflexive(a: AddressData)
    ensures a.Equals(Of(a))
  {
  }

  lemma EqualsSymmetric(a: AddressData, b: AddressData)
    ensures a.Equals(Of(b)) <==> b.Equals(Of(a))
  {
  }

  lemma EqualsTransitive(a: AddressData, b: AddressData, c: AddressData)
    requires a.Equals(Of(b)) && b.Equals(Of(c))
    ensures a.Equals(Of(c))
  {
  }

  /** Equal addresses hash alike, whatever the string and list hash functions are. */
  lemma EqualsImpliesEqualHash(a: AddressData, b: AddressData, strHash: string -> bv32, listHash: LineList -> bv32)
    requires a.Equals(Of(b))
    ensures a.Hash(strHash, listHash) == b.Hash(strHash, listHash)
  {
  }

  /** The nine scalars are the eight single-value fields and the language. */
  lemma SameFieldsSameScalars(a: AddressData, b: AddressData)
    requires forall f :: f in SingleValueFields ==> a.GetFieldValue(f) == b.GetFieldValue(f)
    requires a.languageCode == b.languageCode
    ensures a.Scalars() == b.Scalars()
  {
    assert a.postalCountry == b.postalCountry by {
      assert a.GetFieldValue(Country) == b.GetFieldValue(Country);
    }
    assert a.administrativeArea == b.administrativeArea by {
      assert a.GetFieldValue(AdminArea) == b.GetFieldValue(AdminArea);
    }
    assert a.locality == b.locality by {
      assert a.GetFieldValue(Locality) == b.GetFieldValue(Locality);
    }
    assert a.dependentLocality == b.dependentLocality by {
      assert a.GetFieldValue(DependentLocality) == b.GetFieldValue(DependentLocality);
    }
    assert a.postalCode == b.postalCode by {
      assert a.GetFieldValue(PostalCode) == b.GetFieldValue(PostalCode);
    }
    assert a.sortingCode == b.sortingCode by {
      assert a.GetFieldValue(SortingCode) == b.GetFieldValue(SortingCode);
    }
    assert a.organization == b.organization by {
      assert a.GetFieldValue(Organization) == b.GetFieldValue(Organization);
    }
    assert a.recipient == b.recipient by {
      assert a.GetFieldValue(Recipient) == b.GetFieldValue(Recipient);
    }
  }

  // ---------------------------------------------------------------------------
  // Builder and AddressData together
  // ---------------------------------------------------------------------------

  /** Building, then re-seeding a fresh builder with Set(a) and building again,
      reproduces the eight fields, the language and the line contents. The copy has its
      own list object, so it equals the original only when there are no lines. */
  method CopyThroughBuilder(a: AddressData) returns (b: AddressData)
    requires a.Valid()
    ensures forall f :: f in SingleValueFields ==> b.GetFieldValue(f) == a.GetFieldValue(f)
    ensures b.languageCode == a.languageCode
    ensures b.lines.items == a.lines.items && b.lines != a.lines
    ensures b.Equals(Of(a)) <==> !a.lines.Any()
  {
    var builder := new Builder();
    builder.Set(a);
    b := new AddressData(builder);
    forall f | f in SingleValueFields
      ensures b.GetFieldValue(f) == a.GetFieldValue(f)
    {
      SnapshotOfValid(a, f);
    }
    SameFieldsSameScalars(a, b);
  }

  /** An AddressData sees the lines added to its builder after it was built. */
  method LaterLineEditsAreVisible(x: Option<string>) returns (a: AddressData)
    ensures a.lines.items == [x]
  {
    var builder := new Builder();
    a := new AddressData(builder);
    builder.AddAddressLines(x);
  }
}
