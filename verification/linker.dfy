/** Splicing library addresses into bytecode (helpers/contracts-helpers.ts, linkBytecode). */
module Linker {

  /** A byte range of the code to be replaced by an address. */
  datatype Fixup = Fixup(start: nat, length: nat)

  datatype LibReferences = LibReferences(libName: string, fixups: seq<Fixup>)

  /** The references of one source file, in the order in which its entries are enumerated. */
  datatype FileReferences = FileReferences(fileName: string, libraries: seq<LibReferences>)

  /** The tail of a string from a position on; past the end it is empty. */
  function SubstrFrom(s: string, start: nat): string {
    if start <= |s| then s[start..] else ""
  }

  /** The first characters of a string; all of it when it is shorter. */
  function SubstrTo(s: string, length: nat): string {
    if length <= |s| then s[..length] else s
  }

  // ---------- What linking means ----------

  /** The hex digits of byte `b` start at position 2 + 2 b, after the prefix 0x. */
  function Splice(code: string, f: Fixup, address: string): string {
    SubstrTo(code, 2 + f.start * 2) + SubstrFrom(address, 2) + SubstrFrom(code, 2 + (f.start + f.length) * 2)
  }

  /** One range reserved for the address of a library. */
  datatype Placement = Placement(libName: string, fixup: Fixup)

  function LinkOne(code: string, p: Placement, libraries: map<string, string>): string {
    if p.libName in libraries then Splice(code, p.fixup, libraries[p.libName]) else code
  }

  /** Linking the placements one after the other. */
  function Linked(code: string, ps: seq<Placement>, libraries: map<string, string>): string {
    if ps == [] then code
    else LinkOne(Linked(code, ps[..|ps| - 1], libraries), ps[|ps| - 1], libraries)
  }

  function FixupPlacements(libName: string, fixups: seq<Fixup>): seq<Placement> {
    if fixups == [] then []
    else FixupPlacements(libName, fixups[..|fixups| - 1]) + [Placement(libName, fixups[|fixups| - 1])]
  }

  function LibPlacements(libs: seq<LibReferences>): seq<Placement> {
    if libs == [] then []
    else
      var last := libs[|libs| - 1];
      LibPlacements(libs[..|libs| - 1]) + FixupPlacements(last.libName, last.fixups)
  }

  /** All placements of an artifact, in the order in which the original visits them. */
  function FilePlacements(files: seq<FileReferences>): seq<Placement> {
    if files == [] then []
    else FilePlacements(files[..|files| - 1]) + LibPlacements(files[|files| - 1].libraries)
  }

  lemma {:induction false} LinkedAppend(code: string, ps: seq<Placement>, qs: seq<Placement>, libraries: map<string,
                                        string>)
    ensures Linked(code, ps + qs, libraries) == Linked(Linked(code, ps, libraries), qs, libraries)
  {
    if qs == [] {
      assert ps + qs == ps;
    } else {
      var n := |qs| - 1;
      LinkedAppend(code, ps, qs[..n], libraries);
      assert (ps + qs)[..|ps + qs| - 1] == ps + qs[..n];
    }
  }

  /** Placements of an unknown library change nothing. */
  lemma {:induction false} UnknownLibrary(code: string, libName: string, fixups: seq<Fixup>, libraries: map<string,
                                          string>)
    requires libName !in libraries
    ensures Linked(code, FixupPlacements(libName, fixups), libraries) == code
  {
    if fixups != [] {
      var front := fixups[..|fixups| - 1];
      UnknownLibrary(code, libName, front, libraries);
      LinkedAppend(code, FixupPlacements(libName, front), [Placement(libName, fixups[|fixups| - 1])], libraries);
      LinkedSingle(code, Placement(libName, fixups[|fixups| - 1]), libraries);
    }
  }

  lemma LinkedSingle(code: string, p: Placement, libraries: map<string, string>)
    ensures Linked(code, [p], libraries) == LinkOne(code, p, libraries)
  {
    assert [p][..0] == [];
    assert Linked(code, [], libraries) == code;
  }

  lemma FixupStep(start: string, libName: string, fixups: seq<Fixup>, k: nat, libraries: map<string, string>)
    requires k < |fixups|
    ensures Linked(start, FixupPlacements(libName, fixups[..k + 1]), libraries)
         == LinkOne(Linked(start, FixupPlacements(libName, fixups[..k]), libraries), Placement(libName, fixups[k]),
                    libraries)
  {
    assert fixups[..k + 1][..k] == fixups[..k];
    LinkedAppend(start, FixupPlacements(libName, fixups[..k]), [Placement(libName, fixups[k])], libraries);
    LinkedSingle(Linked(start, FixupPlacements(libName, fixups[..k]), libraries), Placement(libName, fixups[k]),
                 libraries);
  }

  lemma LibStep(start: string, libs: seq<LibReferences>, j: nat, libraries: map<string, string>)
    requires j < |libs|
    ensures Linked(start, LibPlacements(libs[..j + 1]), libraries)
         == Linked(Linked(start, LibPlacements(libs[..j]), libraries),
                   FixupPlacements(libs[j].libName, libs[j].fixups), libraries)
  {
    assert libs[..j + 1][..j] == libs[..j];
    LinkedAppend(start, LibPlacements(libs[..j]), FixupPlacements(libs[j].libName, libs[j].fixups), libraries);
  }

  lemma FileStep(start: string, files: seq<FileReferences>, i: nat, libraries: map<string, string>)
    requires i < |files|
    ensures Linked(start, FilePlacements(files[..i + 1]), libraries)
         == Linked(Linked(start, FilePlacements(files[..i]), libraries), LibPlacements(files[i].libraries), libraries)
  {
    assert files[..i + 1][..i] == files[..i];
    LinkedAppend(start, FilePlacements(files[..i]), LibPlacements(files[i].libraries), libraries);
  }

  lemma NothingLinked(code: string, libName: string, libraries: map<string, string>)
    ensures Linked(code, FixupPlacements(libName, []), libraries) == code
    ensures Linked(code, LibPlacements([]), libraries) == code
    ensures Linked(code, FilePlacements([]), libraries) == code
  {
  }

  /** The original's nested loops. */
  method LinkBytecode(code: string, linkReferences: seq<FileReferences>, libraries: map<string,
                      string>) returns (bytecode: string)
    ensures bytecode == Linked(code, FilePlacements(linkReferences), libraries)
  {
    hide Linked, FilePlacements, LibPlacements, FixupPlacements, SubstrTo, SubstrFrom;
    bytecode := code;
    NothingLinked(code, "", libraries);
    for i := 0 to |linkReferences|
      invariant bytecode == Linked(code, FilePlacements(linkReferences[..i]), libraries)
    {
      var fileReferences := linkReferences[i].libraries;
      ghost var before := bytecode;
      NothingLinked(before, "", libraries);
      for j := 0 to |fileReferences|
        invariant bytecode == Linked(before, LibPlacements(fileReferences[..j]), libraries)
      {
        var libName, fixups := fileReferences[j].libName, fileReferences[j].fixups;
        ghost var start := bytecode;
        LibStep(before, fileReferences, j, libraries);
        if libName !in libraries {
          UnknownLibrary(start, libName, fixups, libraries);
          continue;
        }
        var addr := libraries[libName];
        NothingLinked(start, libName, libraries);
        for k := 0 to |fixups|
          invariant bytecode == Linked(start, FixupPlacements(libName, fixups[..k]), libraries)
        {
          var fixup := fixups[k];
          FixupStep(start, libName, fixups, k, libraries);
          bytecode := SubstrTo(bytecode, 2 + fixup.start * 2) + SubstrFrom(addr, 2)
              + SubstrFrom(bytecode, 2 + (fixup.start + fixup.length) * 2);
        }
        assert fixups[..|fixups|] == fixups;
      }
      assert fileReferences[..|fileReferences|] == fileReferences;
      FileStep(code, linkReferences, i, libraries);
    }
    assert linkReferences[..|linkReferences|] == linkReferences;
  }

  // ---------- Disjoint placements ----------

  predicate Covers(f: Fixup, k: int) {
    2 + f.start * 2 <= k < 2 + (f.start + f.length) * 2
  }

  predicate Apart(f: Fixup, g: Fixup) {
    f.start + f.length <= g.start || g.start + g.length <= f.start
  }

  /** Every range is within the code, every given address fills its ranges (20 bytes each in the
      original's use), and different placements do not overlap. */
  ghost predicate Linkable(length: nat, ps: seq<Placement>, libraries: map<string, string>) {
    && (forall p :: p in ps ==> 2 + (p.fixup.start + p.fixup.length) * 2 <= length)
    && (forall p :: p in ps && p.libName in libraries ==> |libraries[p.libName]| == 2 + p.fixup.length * 2)
    && (forall p, q :: p in ps && q in ps && p != q ==> Apart(p.fixup, q.fixup))
  }

  /** What position `k` holds after linking: a digit of the address of the library placed there. */
  ghost predicate HoldsLinked(code: string, ps: seq<Placement>, libraries: map<string, string>, result: string, k: nat)
    requires k < |code| == |result| && Linkable(|code|, ps, libraries)
  {
    && (forall p :: p in ps && Covers(p.fixup, k) ==>
          result[k] == if p.libName in libraries then libraries[p.libName][k - p.fixup.start * 2] else code[k])
    && ((forall p :: p in ps ==> !Covers(p.fixup, k)) ==> result[k] == code[k])
  }

  lemma SpliceAt(code: string, f: Fixup, address: string)
    requires 2 + (f.start + f.length) * 2 <= |code| && |address| == 2 + f.length * 2
    ensures |Splice(code, f, address)| == |code|
    ensures forall k :: 0 <= k < |code| ==>
              Splice(code, f, address)[k] == if Covers(f, k) then address[k - f.start * 2] else code[k]
  {
  }

  lemma LinkableFront(length: nat, ps: seq<Placement>, libraries: map<string, string>)
    requires ps != [] && Linkable(length, ps, libraries)
    ensures Linkable(length, ps[..|ps| - 1], libraries)
  {
    forall p | p in ps[..|ps| - 1] ensures p in ps {
    }
  }

  /** Linking keeps the length, puts each given address in exactly its ranges, and leaves every
      other character (ranges of missing libraries included) as it was. */
  lemma {:induction false} LinkedChars(code: string, ps: seq<Placement>, libraries: map<string, string>)
    requires Linkable(|code|, ps, libraries)
    ensures |Linked(code, ps, libraries)| == |code|
    ensures forall k :: 0 <= k < |code| ==> HoldsLinked(code, ps, libraries, Linked(code, ps, libraries), k)
  {
    if ps != [] {
      var front, last := ps[..|ps| - 1], ps[|ps| - 1];
      LinkableFront(|code|, ps, libraries);
      LinkedChars(code, front, libraries);
      var before := Linked(code, front, libraries);
      var result := Linked(code, ps, libraries);
      assert result == LinkOne(before, last, libraries);
      assert forall p :: p in ps <==> p in front || p == last by {
        assert ps == front + [last];
      }
      if last.libName in libraries {
        SpliceAt(before, last.fixup, libraries[last.libName]);
      }
      forall k | 0 <= k < |code| ensures HoldsLinked(code, ps, libraries, result, k) {
        LinkedCharStep(code, front, last, ps, libraries, before, result, k);
      }
    }
  }

  lemma LinkedCharStep(code: string, front: seq<Placement>, last: Placement, ps: seq<Placement>,
                       libraries: map<string, string>,
                       before: string, result: string, k: nat)
    requires k < |code| == |before| == |result|
    requires Linkable(|code|, ps, libraries) && Linkable(|code|, front, libraries)
    requires forall p :: p in ps <==> p in front || p == last
    requires HoldsLinked(code, front, libraries, before, k)
    requires result[k]
          == if last.libName in libraries && Covers(last.fixup, k)
             then libraries[last.libName][k - last.fixup.start * 2]
             else before[k]
    ensures HoldsLinked(code, ps, libraries, result, k)
  {
    if Covers(last.fixup, k) {
      assert last in ps;
      forall p | p in ps && p != last ensures !Covers(p.fixup, k) {
        assert Apart(p.fixup, last.fixup);
      }
      if last.libName !in libraries && last !in front {
        assert forall p :: p in front ==> !Covers(p.fixup, k);
      }
    } else {
      forall p | p in ps && Covers(p.fixup, k) ensures p in front {
      }
    }
  }

  // ---------- Order and repetition ----------

  /** Two strings holding the same links over the same code are equal. */
  lemma SameLinks(code: string, ps: seq<Placement>, qs: seq<Placement>, libraries: map<string, string>, a: string,
                  b: string)
    requires Linkable(|code|, ps, libraries) && Linkable(|code|, qs, libraries)
    requires forall p :: p in ps <==> p in qs
    requires |a| == |b| == |code|
    requires forall k :: 0 <= k < |code| ==> HoldsLinked(code, ps, libraries, a, k)
    requires forall k :: 0 <= k < |code| ==> HoldsLinked(code, qs, libraries, b, k)
    ensures a == b
  {
    forall k | 0 <= k < |code| ensures a[k] == b[k] {
      assert HoldsLinked(code, ps, libraries, a, k) && HoldsLinked(code, qs, libraries, b, k);
      if p :| p in ps && Covers(p.fixup, k) {
        assert p in qs;
      }
    }
  }

  /** The result does not depend on the order (or repetition) of the placements. */
  lemma OrderIndependent(code: string, ps: seq<Placement>, qs: seq<Placement>, libraries: map<string, string>)
    requires Linkable(|code|, ps, libraries)
    requires forall p :: p in ps <==> p in qs
    ensures Linked(code, ps, libraries) == Linked(code, qs, libraries)
  {
    assert Linkable(|code|, qs, libraries);
    LinkedChars(code, ps, libraries);
    LinkedChars(code, qs, libraries);
    SameLinks(code, ps, qs, libraries, Linked(code, ps, libraries), Linked(code, qs, libraries));
  }

  /** Linking linked code again changes nothing. */
  lemma Idempotent(code: string, ps: seq<Placement>, libraries: map<string, string>)
    requires Linkable(|code|, ps, libraries)
    ensures Linked(Linked(code, ps, libraries), ps, libraries) == Linked(code, ps, libraries)
  {
    OrderIndependent(code, ps, ps + ps, libraries);
    LinkedAppend(code, ps, ps, libraries);
  }

  // ---------- Artifacts ----------

  /** Some file lists this fixup under this library. */
  ghost predicate Listed(files: seq<FileReferences>, p: Placement) {
    exists file, lib :: file in files && lib in file.libraries && lib.libName == p.libName && p.fixup in lib.fixups
  }

  lemma {:induction false} FixupPlacementsAre(libName: string, fixups: seq<Fixup>, p: Placement)
    ensures p in FixupPlacements(libName, fixups) <==> p.libName == libName && p.fixup in fixups
  {
    if fixups != [] {
      var n := |fixups| - 1;
      FixupPlacementsAre(libName, fixups[..n], p);
      assert fixups == fixups[..n] + [fixups[n]];
    }
  }

  lemma {:induction false} LibPlacementsAre(libs: seq<LibReferences>, p: Placement)
    ensures p in LibPlacements(libs) <==> exists lib :: lib in libs && lib.libName == p.libName && p.fixup in lib.fixups
  {
    if libs != [] {
      var n := |libs| - 1;
      LibPlacementsAre(libs[..n], p);
      FixupPlacementsAre(libs[n].libName, libs[n].fixups, p);
      assert libs == libs[..n] + [libs[n]];
    }
  }

  /** The placements visited are exactly those listed. */
  lemma {:induction false} FilePlacementsAre(files: seq<FileReferences>, p: Placement)
    ensures p in FilePlacements(files) <==> Listed(files, p)
  {
    if files != [] {
      var n := |files| - 1;
      FilePlacementsAre(files[..n], p);
      LibPlacementsAre(files[n].libraries, p);
      assert files == files[..n] + [files[n]];
    }
  }

  /** The artifact level: the linked code keeps its length, holds each given address in exactly its
      listed ranges and the original characters elsewhere, is the same for any enumeration of the
      same references, and is unchanged by linking again. */
  lemma ArtifactLinking(code: string, files: seq<FileReferences>, permuted: seq<FileReferences>,
                        libraries: map<string, string>)
    requires Linkable(|code|, FilePlacements(files), libraries)
    requires forall p :: Listed(files, p) <==> Listed(permuted, p)
    ensures var result := Linked(code, FilePlacements(files), libraries);
            && |result| == |code|
            && (forall k :: 0 <= k < |code| ==> HoldsLinked(code, FilePlacements(files), libraries, result, k))
            && Linked(code, FilePlacements(permuted), libraries) == result
            && Linked(result, FilePlacements(files), libraries) == result
  {
    LinkedChars(code, FilePlacements(files), libraries);
    forall p ensures p in FilePlacements(files) <==> p in FilePlacements(permuted) {
      FilePlacementsAre(files, p);
      FilePlacementsAre(permuted, p);
    }
    OrderIndependent(code, FilePlacements(files), FilePlacements(permuted), libraries);
    Idempotent(code, FilePlacements(files), libraries);
  }
}
