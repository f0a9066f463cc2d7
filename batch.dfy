/** The per-file driver `process_file` and the list of input paths `main`
    builds: where each rewritten file goes, what is written there, and which
    files of the walked input folder are processed. */
module Batch {
  import opened PosixPath
  import opened BedTable

  /** The suffix every output file name gets in place of the input's extension. */
  const OutputSuffix: string := ".modified.bed"

  /** `os.path.splitext(os.path.basename(bedPath))[0] + ".modified.bed"`. */
  function OutputName(bedPath: string): (n: string)
    ensures '/' !in n
    ensures |n| >= |OutputSuffix| && n[|n| - |OutputSuffix|..] == OutputSuffix
    ensures n[..|n| - |OutputSuffix|] + SplitExt(Basename(bedPath)).1 == Basename(bedPath)
  {
    assert '/' !in OutputSuffix;
    ReplaceExtension(bedPath, OutputSuffix);
    SplitExt(Basename(bedPath)).0 + OutputSuffix
  }

  /** Replacing the extension of a path's basename by a slash-free suffix gives
      a slash-free name that ends in the suffix, with the basename's stem in front. */
  lemma ReplaceExtension(p: string, suffix: string)
    requires '/' !in suffix
    ensures '/' !in SplitExt(Basename(p)).0 + suffix
    ensures (SplitExt(Basename(p)).0 + suffix)[..|SplitExt(Basename(p)).0|] == SplitExt(Basename(p)).0
    ensures (SplitExt(Basename(p)).0 + suffix)[|SplitExt(Basename(p)).0|..] == suffix
  {
    var b := Basename(p);
    var stem := SplitExt(b).0;
    assert forall i :: 0 <= i < |stem| ==> stem[i] == b[i];
  }

  /** The output path of `process_file`: the output name joined onto the
      output folder. The file lies directly in that folder and is named by
      `OutputName`, whatever folder the input came from. */
  function OutputPath(folder: string, bedPath: string): (r: string)
    ensures Basename(r) == OutputName(bedPath)
    ensures |folder| <= |r| && r[..|folder|] == folder
    ensures r == folder + OutputName(bedPath) || r == folder + "/" + OutputName(bedPath)
  {
    JoinBasename(folder, OutputName(bedPath));
    Join(folder, OutputName(bedPath))
  }

  /** Two inputs that share a basename stem, from any folders and with any
      extensions, are written to the same output path; under the worker pool,
      scheduling decides which write survives. */
  lemma SharedStemCollides(folder: string, dir1: string, dir2: string, stem: string, ext1: string, ext2: string)
    requires '/' !in stem && '/' !in ext1 && '.' !in ext1 && '/' !in ext2 && '.' !in ext2
    requires exists i :: 0 <= i < |stem| && stem[i] != '.'
    ensures OutputPath(folder, dir1 + "/" + stem + "." + ext1) == OutputPath(folder, dir2 + "/" + stem + "." + ext2)
  {
    OutputNameDropsLastExtension(dir1, stem, ext1);
    OutputNameDropsLastExtension(dir2, stem, ext2);
  }

  /** Whatever the input's extension, the output's extension is ".bed" and its
      stem is the input's stem followed by ".modified". */
  lemma OutputExtensionIsBed(bedPath: string)
    ensures SplitExt(OutputName(bedPath)) == (SplitExt(Basename(bedPath)).0 + ".modified", ".bed")
  {
    var b := Basename(bedPath);
    var stem := SplitExt(b).0;
    assert '/' !in stem by { assert stem + SplitExt(b).1 == b; }
    ModifiedStem(stem);
    SplitAtLastDot(stem + ".modified", "bed");
  }

  /** Appending the output suffix to a stem puts ".modified" before the final
      extension "bed", with a non-dot character in front of that last dot. */
  lemma ModifiedStem(stem: string)
    requires '/' !in stem
    ensures stem + OutputSuffix == (stem + ".modified") + "." + "bed"
    ensures '/' !in stem + ".modified" && (stem + ".modified")[|stem| + 1] == 'm'
    ensures '.' !in "bed" && '/' !in "bed" && "." + "bed" == ".bed"
  {
  }

  /** A file whose name has an extension after some non-dot character loses
      just that last extension: "dir/a.b.txt" is written as "a.b.modified.bed". */
  lemma OutputNameDropsLastExtension(dir: string, stem: string, ext: string)
    requires '/' !in stem && '/' !in ext && '.' !in ext
    requires exists i :: 0 <= i < |stem| && stem[i] != '.'
    ensures OutputName(dir + "/" + stem + "." + ext) == stem + OutputSuffix
  {
    var p := dir + "/" + stem + "." + ext;
    assert Basename(p) == stem + "." + ext by {
      RFindIs(p, '/', |dir|);
      assert p[|dir| + 1..] == stem + "." + ext;
    }
    SplitAtLastDot(stem, ext);
  }

  /** A bare name without a dot, such as "x", keeps all of it: "x.modified.bed". */
  lemma OutputNameWithoutExtension(name: string)
    requires '/' !in name && '.' !in name
    ensures OutputName(name) == name + OutputSuffix
  {
    assert Basename(name) == name by { RFindIs(name, '/', -1); }
    NoDotNoExt(name);
  }

  /** A hidden file such as ".peaks", with no dot after the leading one, has
      no extension and keeps its whole name. */
  lemma OutputNameHiddenFile(dir: string, name: string)
    requires '/' !in name && '.' !in name
    ensures OutputName(dir + "/." + name) == "." + name + OutputSuffix
  {
    var p := dir + "/." + name;
    assert Basename(p) == "." + name by {
      RFindIs(p, '/', |dir|);
      assert p[|dir| + 1..] == "." + name;
    }
    LeadingDotsNoExt(".", name);
  }

  /** What `process_file` leaves behind for one input file. */
  datatype FileOutcome =
    | Saved(path: string, rows: seq<Row>)  // `save_to_file(output_path)` writes these rows
    | NamingFailed                         // the column naming in the constructor raised
    | ModifyFailed(row: nat)               // `modify` raised on this row's token

  /** `process_file(bed_path, fasta_chromosomes, folderOfOutput)` on the frame
      `read_csv` produced: name the columns, rewrite the chromosome column and
      return what is saved and where. */
  method ProcessFile(frame: seq<Row>, width: nat, valid: seq<string>, bedPath: string, folder: string)
    returns (out: FileOutcome)
    requires forall i :: 0 <= i < |frame| ==> |frame[i]| == width
    requires width >= 3 ==> TokensWellFormed(frame)
    ensures width < 3 <==> out == NamingFailed
    ensures width >= 3 && RenameRows(frame, valid).Raised? ==>
              out == ModifyFailed(RenameRows(frame, valid).row)
    ensures width >= 3 && RenameRows(frame, valid).Rewritten? ==>
              out == Saved(OutputPath(folder, bedPath), RenameRows(frame, valid).rows)
  {
    if ColumnLabels(width).None? {
      return NamingFailed;
    }
    var table := new Table(frame, width);
    var failed := table.ModifyChromosomes(valid);
    if failed.Some? {
      return ModifyFailed(failed.value);
    }
    return Saved(OutputPath(folder, bedPath), table.rows[..]);
  }

  /** One step of `os.walk`: a directory and the names of the files in it. */
  datatype WalkStep = WalkStep(root: string, dirs: seq<string>, files: seq<string>)

  /** The version-control placeholder `main` skips. */
  const Placeholder: string := ".gitkeep"

  /** `[os.path.join(root, f) for f in files if f != ".gitkeep"]`. */
  function KeptFiles(root: string, files: seq<string>): (r: seq<string>)
    ensures |r| <= |files|
    ensures forall p :: p in r ==> exists f :: f in files && f != Placeholder && p == Join(root, f)
    ensures forall f :: f in files && f != Placeholder ==> Join(root, f) in r
  {
    if files == [] then []
    else (if files[0] != Placeholder then [Join(root, files[0])] else []) + KeptFiles(root, files[1..])
  }

  /** The list of BED paths `main` hands to the worker pool: every file of
      every walked directory except the placeholders. */
  function BedPaths(walk: seq<WalkStep>): (r: seq<string>)
    ensures forall p :: p in r ==>
              exists i, f :: 0 <= i < |walk| && f in walk[i].files && f != Placeholder && p == Join(walk[i].root, f)
    ensures forall i, f :: 0 <= i < |walk| && f in walk[i].files && f != Placeholder ==>
              Join(walk[i].root, f) in r
  {
    if walk == [] then []
    else KeptFiles(walk[0].root, walk[0].files) + BedPaths(walk[1..])
  }

  /** File names from a directory listing hold no '/', so no listed path
      names a placeholder. */
  lemma NoPlaceholderListed(walk: seq<WalkStep>)
    requires forall i, f :: 0 <= i < |walk| && f in walk[i].files ==> '/' !in f
    ensures forall p :: p in BedPaths(walk) ==> Basename(p) != Placeholder
  {
    forall p | p in BedPaths(walk) ensures Basename(p) != Placeholder {
      var i, f :| 0 <= i < |walk| && f in walk[i].files && f != Placeholder && p == Join(walk[i].root, f);
      JoinBasename(walk[i].root, f);
    }
  }
}
