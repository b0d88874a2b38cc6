/**
 * Naming the generated certificates: `cleanString` (reserved file-name characters
 * become `_`, every run of white space becomes one space) and the
 * `{seq}_{doc}_{name}_({cargo}).pdf` name built from a row's first four cells.
 */
module FileNames {
  import opened Wrappers
  import opened JsText
  import opened Cells

  /** The characters of the class `[<>:"/\\|?*]`. */
  predicate IsReserved(c: char) {
    c == '<' || c == '>' || c == ':' || c == '"' || c == '/' || c == '\\' || c == '|' || c == '?' || c == '*'
  }

  /** `str.replace(/[<>:"/\\|?*]/g, '_')`. */
  function ReplaceReserved(s: string): string {
    seq(|s|, i requires 0 <= i < |s| => if IsReserved(s[i]) then '_' else s[i])
  }

  /** `s[i..].replace(/\s+/g, ' ')`. */
  function CollapseFrom(s: string, i: nat): string
    requires i <= |s|
    decreases |s| - i
  {
    if i == |s| then ""
    else if IsSpace(s[i]) then " " + CollapseFrom(s, SpacesFrom(s, i))
    else [s[i]] + CollapseFrom(s, i + 1)
  }

  /** Collapsing keeps every character that is not white space, turns each run of
   *  white space into exactly one space, and so never leaves two spaces in a row. */
  lemma {:induction false} CollapseFromFacts(s: string, i: nat)
    requires i <= |s|
    ensures var r := CollapseFrom(s, i);
      && (r == [] <==> i == |s|)
      && (i < |s| && !IsSpace(s[i]) ==> r[0] == s[i])
      && (forall k :: 0 <= k < |r| ==> r[k] == ' ' || r[k] in s)
      && (forall k :: 0 <= k < |r| && IsSpace(r[k]) ==> r[k] == ' ')
      && (forall k :: 0 <= k < |r| - 1 ==> !(r[k] == ' ' && r[k + 1] == ' '))
    decreases |s| - i
  {
    if i < |s| {
      var r := CollapseFrom(s, i);
      if IsSpace(s[i]) {
        var j := SpacesFrom(s, i);
        CollapseFromFacts(s, j);
        var rest := CollapseFrom(s, j);
        assert r == " " + rest;
        assert j < |s| ==> rest[0] != ' ';
        assert forall k :: 1 <= k < |r| ==> r[k] == rest[k - 1];
      } else {
        CollapseFromFacts(s, i + 1);
        var rest := CollapseFrom(s, i + 1);
        assert r == [s[i]] + rest;
        assert forall k :: 1 <= k < |r| ==> r[k] == rest[k - 1];
      }
    }
  }

  /** No reserved character, no white space but the plain space, and no two spaces in a row. */
  predicate IsClean(s: string) {
    && (forall k :: 0 <= k < |s| ==> !IsReserved(s[k]))
    && (forall k :: 0 <= k < |s| && IsSpace(s[k]) ==> s[k] == ' ')
    && (forall k :: 0 <= k < |s| - 1 ==> !(s[k] == ' ' && s[k + 1] == ' '))
  }

  /** `cleanString`. */
  function CleanString(s: string): string {
    CollapseFrom(ReplaceReserved(s), 0)
  }

  /** Whatever `cleanString` is given, its result is clean. */
  lemma CleanStringIsClean(s: string)
    ensures IsClean(CleanString(s))
  {
    var t := ReplaceReserved(s);
    var r := CleanString(s);
    CollapseFromFacts(t, 0);
    forall k | 0 <= k < |r|
      ensures !IsReserved(r[k])
    {
      if r[k] != ' ' {
        var m :| 0 <= m < |t| && t[m] == r[k];
      }
    }
  }

  /** Collapsing an already clean string changes nothing. */
  lemma {:induction false} CollapseClean(s: string, i: nat)
    requires IsClean(s) && i <= |s|
    ensures CollapseFrom(s, i) == s[i..]
    decreases |s| - i
  {
    if i < |s| {
      if IsSpace(s[i]) {
        var j := SpacesFrom(s, i);
        assert i + 1 < |s| ==> !IsSpace(s[i + 1]);
        CollapseClean(s, j);
      } else {
        CollapseClean(s, i + 1);
      }
    }
  }

  /** A clean string is its own cleaning. */
  lemma CleanStringFixesClean(s: string)
    requires IsClean(s)
    ensures CleanString(s) == s
  {
    assert ReplaceReserved(s) == s;
    CollapseClean(s, 0);
  }

  /** Cleaning leaves a string unchanged exactly when the string is clean. */
  lemma CleanStringUnchangedIff(s: string)
    ensures CleanString(s) == s <==> IsClean(s)
  {
    CleanStringIsClean(s);
    if IsClean(s) {
      CleanStringFixesClean(s);
    }
  }

  /** Cleaning twice is cleaning once. */
  lemma CleanStringIdempotent(s: string)
    ensures CleanString(CleanString(s)) == CleanString(s)
  {
    CleanStringIsClean(s);
    CleanStringFixesClean(CleanString(s));
  }

  // ---------------------------------------------------------------------------
  // The certificate's file name

  /** The value of one name part before cleaning: a string, or the number that
   *  stands in for a missing sequential number. */
  datatype NamePart = Text(s: string) | Number(n: int)

  /** `rowData[k] ? String(rowData[k]).trim() : ''` for the document, name and cargo parts. */
  function TextPart(row: seq<Cell>, k: int): string {
    var c := CellAt(row, k);
    if Truthy(c) then Trim(ToJsString(c)) else ""
  }

  /** `rowData[0] ? String(rowData[0]).trim() : i + 1`: a number when cell 0 is falsy. */
  function SequentialPart(row: seq<Cell>, i: nat): (p: NamePart)
    ensures p.Number? <==> !Truthy(CellAt(row, 0))
    ensures p.Text? ==> p.s == TextPart(row, 0)
    ensures p.Number? ==> p.n == i + 1
  {
    if Truthy(CellAt(row, 0)) then Text(TextPart(row, 0)) else Number(i + 1)
  }

  /** `cleanString(part)`. A number has no `replace` method, so cleaning one throws
   *  (a TypeError): `None`. */
  function CleanPart(p: NamePart): (r: Option<string>)
    ensures r.Some? <==> p.Text?
    ensures p.Text? ==> r.value == CleanString(p.s)
  {
    match p
    case Text(s) => Some(CleanString(s))
    case Number(_) => None
  }

  /** The archive entry name of row `i`, or `None` when building it throws. */
  function CertificateFileName(row: seq<Cell>, i: nat): (r: Option<string>)
    ensures r.Some? <==> Truthy(CellAt(row, 0))
  {
    match CleanPart(SequentialPart(row, i))
    case None => None
    case Some(sequential) =>
      Some(sequential + "_" + CleanString(TextPart(row, 1)) + "_" + CleanString(TextPart(row, 2))
           + "_(" + CleanString(TextPart(row, 3)) + ").pdf")
  }

  predicate NoReserved(s: string) {
    forall k :: 0 <= k < |s| ==> !IsReserved(s[k])
  }

  lemma {:induction false} NoReservedAppend(a: string, b: string)
    requires NoReserved(a) && NoReserved(b)
    ensures NoReserved(a + b)
  {
    forall k | 0 <= k < |a + b|
      ensures !IsReserved((a + b)[k])
    {
      if k < |a| { assert (a + b)[k] == a[k]; } else { assert (a + b)[k] == b[k - |a|]; }
    }
  }

  /** The name is the four trimmed, cleaned cells joined as `{seq}_{doc}_{name}_({cargo}).pdf`;
   *  it holds no reserved character (so in particular no folder separator). */
  lemma CertificateFileNameShape(row: seq<Cell>, i: nat)
    requires Truthy(CellAt(row, 0))
    ensures var name := CertificateFileName(row, i).value;
      && name == CleanString(TextPart(row, 0)) + "_" + CleanString(TextPart(row, 1)) + "_"
                 + CleanString(TextPart(row, 2)) + "_(" + CleanString(TextPart(row, 3)) + ").pdf"
      && NoReserved(name)
      && EndsWith(name, ").pdf")
  {
    var a, b, c, d := CleanString(TextPart(row, 0)), CleanString(TextPart(row, 1)),
                      CleanString(TextPart(row, 2)), CleanString(TextPart(row, 3));
    CleanStringIsClean(TextPart(row, 0));
    CleanStringIsClean(TextPart(row, 1));
    CleanStringIsClean(TextPart(row, 2));
    CleanStringIsClean(TextPart(row, 3));
    JoinNoReserved(a, b, c, d);
  }

  /** Joining four reserved-free parts with the fixed separators stays reserved-free. */
  lemma JoinNoReserved(a: string, b: string, c: string, d: string)
    requires NoReserved(a) && NoReserved(b) && NoReserved(c) && NoReserved(d)
    ensures NoReserved(a + "_" + b + "_" + c + "_(" + d + ").pdf")
  {
    assert NoReserved("_") && NoReserved("_(") && NoReserved(").pdf");
    NoReservedAppend(a, "_");
    NoReservedAppend(a + "_", b);
    NoReservedAppend(a + "_" + b, "_");
    NoReservedAppend(a + "_" + b + "_", c);
    NoReservedAppend(a + "_" + b + "_" + c, "_(");
    NoReservedAppend(a + "_" + b + "_" + c + "_(", d);
    NoReservedAppend(a + "_" + b + "_" + c + "_(" + d, ").pdf");
  }

  /** Rows that agree on their first four trimmed cells get the same name, whatever
   *  their position: the later one's entry replaces the earlier one's. */
  lemma SameCellsSameName(r1: seq<Cell>, i1: nat, r2: seq<Cell>, i2: nat)
    requires Truthy(CellAt(r1, 0)) && Truthy(CellAt(r2, 0))
    requires forall k :: 0 <= k < 4 ==> TextPart(r1, k) == TextPart(r2, k)
    ensures CertificateFileName(r1, i1) == CertificateFileName(r2, i2)
  {
    assert TextPart(r1, 0) == TextPart(r2, 0);
    assert TextPart(r1, 1) == TextPart(r2, 1);
    assert TextPart(r1, 2) == TextPart(r2, 2);
    assert TextPart(r1, 3) == TextPart(r2, 3);
  }
}
