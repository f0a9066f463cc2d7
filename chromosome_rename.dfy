/** The chromosome-name rewrite applied to one BED token: the inner function
    `modify` of `BEDChromosomeModifier.modify_chromosomes`.

    The catalog of canonical names (the FASTA record identifiers) is a Python
    set; it is modelled as a sequence listing the set in its iteration order.
    A token that reaches the catalog scan and matches no entry leaves the
    local `modified` unbound, and `return modified` raises; that outcome is
    `Unassigned` here. */
module ChromosomeRename {
  import opened Strings

  datatype Option<T> = None | Some(value: T)

  /** What `modify` produces: a name, or the exception raised when the local
      `modified` was never assigned. */
  datatype Rename = Ok(name: string) | Unassigned

  /** Python's `str.isdigit`, restricted to ASCII digits: non-empty, digits only. */
  predicate IsDigitToken(t: string)
    ensures IsDigitToken(t) ==> |t| > 0 && '.' !in t && '_' !in t
    ensures IsDigitToken(t) ==> t != "MT" && t != "X" && t != "Y"
  {
    if |t| > 0 && forall i :: 0 <= i < |t| ==> '0' <= t[i] <= '9' then
      assert '0' <= t[0] <= '9';
      true
    else false
  }

  /** A token that none of the three fixed rules handles, so it goes to the catalog scan. */
  predicate IsIrregular(t: string)
  {
    !IsDigitToken(t) && t != "MT" && t != "X" && t != "Y"
  }

  /** The characters Python's `re` treats as special outside a character class. */
  const RegexMeta: set<char> := {'.', '^', '$', '*', '+', '?', '{', '}', '[', ']', '\\', '|', '(', ')'}

  /** A pattern fragment with no special character: it matches exactly itself. */
  predicate IsLiteralPattern(p: string)
  {
    forall i :: 0 <= i < |p| ==> p[i] !in RegexMeta
  }

  /** The search probe of an irregular token: `"_" + t.replace(".", "v")`. */
  function Probe(t: string): (p: string)
    ensures |p| == |t| + 1 && p[0] == '_'
    ensures '.' !in p
    ensures forall i :: 0 <= i < |t| ==> p[i + 1] == (if t[i] == '.' then 'v' else t[i])
  {
    "_" + ReplaceChar(t, '.', 'v')
  }

  /** What `modify` demands of a token for this model: if the token reaches the
      regular-expression step, its probe compiles to a literal pattern. */
  predicate ProbeIsLiteral(t: string)
  {
    IsIrregular(t) ==> IsLiteralPattern(Probe(t))
  }

  /** `re.compile(".*(" + lit + ").*").match(s)` followed by `.group(1)`, for a
      literal `lit`. `match` anchors at the start of `s`; the leading `.*` can
      consume any run of characters other than a newline, after which the group
      must read `lit` itself. The group's text is therefore `lit` whenever the
      match succeeds. */
  function LiteralGroupMatch(lit: string, s: string): (g: Option<string>)
    requires IsLiteralPattern(lit)
    ensures g.Some? ==> g.value == lit && Contains(s, lit)
  {
    if exists k :: 0 <= k <= |s| - |lit| && '\n' !in s[..k] && OccursAt(lit, s, k) then Some(lit)
    else None
  }

  /** A literal probe matched against itself succeeds and captures itself:
      the regular-expression step of `modify` is the identity. */
  lemma SelfMatch(p: string)
    requires IsLiteralPattern(p)
    ensures LiteralGroupMatch(p, p) == Some(p)
  {
    assert p[..0] == [] && OccursAt(p, p, 0);
  }

  /** Index `i` holds the last entry of `names` that contains `p`. */
  predicate IsLastMatch(names: seq<string>, p: string, i: int)
  {
    0 <= i < |names| && Contains(names[i], p) &&
    forall j :: i < j < |names| ==> !Contains(names[j], p)
  }

  /** The position of the last entry of `names` that contains `p`, or -1. */
  function LastMatchIndex(names: seq<string>, p: string): (k: int)
    ensures -1 <= k < |names|
    ensures k >= 0 ==> IsLastMatch(names, p, k)
    ensures k == -1 ==> forall i :: 0 <= i < |names| ==> !Contains(names[i], p)
  {
    if names == [] then -1
    else if Contains(names[|names| - 1], p) then |names| - 1
    else LastMatchIndex(names[..|names| - 1], p)
  }

  /** The value the scan `for valid_chrom in ...: if p in valid_chrom: modified = valid_chrom`
      leaves behind: the last entry containing `p`, or nothing assigned at all. */
  function LastContaining(names: seq<string>, p: string): (r: Rename)
    ensures r.Unassigned? <==> forall i :: 0 <= i < |names| ==> !Contains(names[i], p)
    ensures r.Ok? ==> r.name in names && Contains(r.name, p)
    ensures r.Ok? ==> exists i :: IsLastMatch(names, p, i) && names[i] == r.name
  {
    var k := LastMatchIndex(names, p);
    if k < 0 then Unassigned else Ok(names[k])
  }

  /** The rewrite of one token against the catalog `valid`, as a value: the
      priority cascade digits, "MT", "X"/"Y", then the catalog scan. */
  function Normalize(chrom: string, valid: seq<string>): (r: Rename)
    requires ProbeIsLiteral(chrom)
    ensures !IsIrregular(chrom) ==> r.Ok? && |r.name| > |chrom| && |r.name| >= 3 && r.name[..3] == "chr"
    ensures IsIrregular(chrom) && r.Ok? ==> r.name in valid && Contains(r.name, Probe(chrom))
  {
    if IsDigitToken(chrom) then Ok("chr" + chrom)
    else if chrom == "MT" then Ok("chrM")
    else if chrom == "X" || chrom == "Y" then Ok("chr" + chrom)
    else
      var probe := Probe(chrom);
      match LiteralGroupMatch(probe, probe)
      case None => Unassigned
      case Some(group) => LastContaining(valid, group)
  }

  /** `modify(chrom)`: the cascade, with the catalog scan as a loop whose last
      assignment wins. */
  method Modify(chrom: string, valid: seq<string>) returns (r: Rename)
    requires ProbeIsLiteral(chrom)
    ensures r == Normalize(chrom, valid)
  {
    if IsDigitToken(chrom) {
      r := Ok("chr" + chrom);
    } else if chrom == "MT" {
      r := Ok("chrM");
    } else if chrom == "X" || chrom == "Y" {
      r := Ok("chr" + chrom);
    } else {
      var probe := "_" + ReplaceChar(chrom, '.', 'v');
      var m := LiteralGroupMatch(probe, probe);
      r := Unassigned;
      if m.Some? {
        for i := 0 to |valid|
          invariant r == LastContaining(valid[..i], m.value)
        {
          assert valid[..i + 1][..i] == valid[..i];
          if Contains(valid[i], m.value) {
            r := Ok(valid[i]);
          }
        }
        assert valid[..|valid|] == valid;
      }
    }
  }

  /** Digit tokens, "MT", "X" and "Y" are rewritten without looking at the
      catalog: the result is the same for every catalog, the empty one included. */
  lemma FixedRules(t: string, valid: seq<string>)
    requires !IsIrregular(t)
    ensures ProbeIsLiteral(t)
    ensures Normalize(t, valid) == Ok(if t == "MT" then "chrM" else "chr" + t)
    ensures Normalize(t, valid) == Normalize(t, [])
  {
    if t == "MT" || t == "X" || t == "Y" {
      assert !IsDigitToken(t) by { assert '9' < t[0]; }
    }
  }

  /** An irregular token is rewritten to the last catalog entry that contains
      its probe, and is unassigned exactly when no entry contains the probe. */
  lemma IrregularRule(t: string, valid: seq<string>)
    requires IsIrregular(t) && IsLiteralPattern(Probe(t))
    ensures Normalize(t, valid) == LastContaining(valid, Probe(t))
    ensures Normalize(t, valid).Unassigned? <==>
              forall i :: 0 <= i < |valid| ==> !Contains(valid[i], Probe(t))
    ensures Normalize(t, valid).Ok? ==>
              exists i :: IsLastMatch(valid, Probe(t), i) && valid[i] == Normalize(t, valid).name
  {
    SelfMatch(Probe(t));
  }

  /** When exactly one catalog entry contains the probe, the result is that
      entry, and it is the same whatever order the catalog is listed in. */
  lemma UniqueMatch(t: string, valid: seq<string>, order: seq<string>, e: string)
    requires IsIrregular(t) && IsLiteralPattern(Probe(t))
    requires e in valid && Contains(e, Probe(t))
    requires forall c :: c in valid && Contains(c, Probe(t)) ==> c == e
    requires forall c :: c in order <==> c in valid
    ensures Normalize(t, valid) == Ok(e)
    ensures Normalize(t, order) == Ok(e)
  {
    IrregularRule(t, valid);
    IrregularRule(t, order);
  }

  /** The last two entries both contain the probe: the one listed later wins,
      so swapping two distinct such entries changes the outcome, which
      therefore depends on the catalog's iteration order. */
  lemma LastMatchWins(t: string, valid: seq<string>, a: string, b: string)
    requires IsIrregular(t) && IsLiteralPattern(Probe(t))
    requires Contains(a, Probe(t)) && Contains(b, Probe(t))
    ensures Normalize(t, valid + [a, b]) == Ok(b)
    ensures Normalize(t, valid + [b, a]) == Ok(a)
  {
    SelfMatch(Probe(t));
  }

  /** A versioned contig name reaches its unplaced-scaffold entry. */
  lemma VersionedContigExample(t: string, valid: seq<string>)
    requires t == "GL000219.1" && valid == ["chr1", "chrM", "chrX", "chrUn_GL000219v1"]
    ensures ProbeIsLiteral(t) && Normalize(t, valid) == Ok("chrUn_GL000219v1")
  {
    VersionedContigProbe(t);
    IrregularRule(t, valid);
    ScaffoldContains(valid[3], Probe(t));
    assert LastMatchIndex(valid, Probe(t)) == 3;
  }

  /** The probe of "GL000219.1" is "_GL000219v1", a literal pattern. */
  lemma VersionedContigProbe(t: string)
    requires t == "GL000219.1"
    ensures IsIrregular(t) && Probe(t) == "_GL000219v1" && IsLiteralPattern(Probe(t))
  {
    ProbeIs(t, "_GL000219v1");
    assert !('0' <= t[0] <= '9');
  }

  /** The scaffold name holds the probe from offset 5 on. */
  lemma ScaffoldContains(s: string, p: string)
    requires s == "chrUn_GL000219v1" && p == "_GL000219v1"
    ensures Contains(s, p)
  {
    assert OccursAt(p, s, 5) by { assert s[5..16] == p; }
  }

  /** A token already in canonical form is not passed through: "chr7" is an
      irregular token whose probe "_chr7" no entry contains, so it is unassigned
      even though the catalog lists "chr7". */
  lemma CanonicalTokenUnassigned(t: string, valid: seq<string>)
    requires t == "chr7" && valid == ["chr1", "chr7", "chrM"]
    ensures ProbeIsLiteral(t) && Normalize(t, valid) == Unassigned
  {
    var p := "_chr7";
    ProbeIs(t, p);
    assert IsIrregular(t) by { assert !('0' <= t[0] <= '9'); }
    IrregularRule(t, valid);
    forall i | 0 <= i < |valid| ensures !Contains(valid[i], p) {
      NoUnderscore(valid[i], p);
    }
  }

  /** `p` is the probe of `t` when it is `"_"` followed by `t` with its dots
      replaced, and is then a literal pattern if it avoids the special characters. */
  lemma ProbeIs(t: string, p: string)
    requires |p| == |t| + 1 && p[0] == '_'
    requires forall i :: 0 <= i < |t| ==> p[i + 1] == (if t[i] == '.' then 'v' else t[i])
    requires IsLiteralPattern(p)
    ensures Probe(t) == p && IsLiteralPattern(Probe(t))
  {
    var q := Probe(t);
    forall i | 0 <= i < |p| ensures q[i] == p[i] {
      if i > 0 { assert q[i] == p[(i - 1) + 1]; }
    }
  }

  /** A string without an underscore contains no probe. */
  lemma NoUnderscore(s: string, p: string)
    requires |p| > 0 && p[0] == '_' && '_' !in s
    ensures !Contains(s, p)
  {
    forall k | 0 <= k <= |s| - |p| ensures !OccursAt(p, s, k) {
      assert s[k..k + |p|][0] == s[k];
    }
  }
}
