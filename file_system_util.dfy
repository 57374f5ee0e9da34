/**
 * fileSystemUtil.ts: the first free name `./<screenName>-<date>[_<i>]` for
 * the saved JSON file or the output directory. The formatted current date
 * and the set of names that already exist are parameters.
 */
module FileSystemUtil {

  /** The character of a decimal digit. */
  function Digit(d: nat): (c: char)
    requires d < 10
    ensures '0' <= c <= '9' && c as int - '0' as int == d
  {
    ('0' as int + d) as char
  }

  /** The decimal text of a number, as a template literal prints it. */
  function DecimalString(n: nat): (s: string)
    ensures |s| >= 1
    ensures forall i :: 0 <= i < |s| ==> '0' <= s[i] <= '9'
    ensures s[0] == '0' <==> n == 0
    ensures |s| == 1 || s[0] != '0'
  {
    if n < 10 then [Digit(n)] else DecimalString(n / 10) + [Digit(n % 10)]
  }

  /** The number a string of decimal digits denotes. */
  function DecimalValue(s: string): nat
    requires forall i :: 0 <= i < |s| ==> '0' <= s[i] <= '9'
  {
    if s == [] then 0 else DecimalValue(s[..|s| - 1]) * 10 + (s[|s| - 1] as int - '0' as int)
  }

  /** Reading back the decimal text gives the number. */
  lemma {:induction false} DecimalRoundTrip(n: nat)
    ensures DecimalValue(DecimalString(n)) == n
  {
    if n >= 10 {
      DecimalRoundTrip(n / 10);
      var s := DecimalString(n);
      assert s[..|s| - 1] == DecimalString(n / 10);
    }
  }

  /** Different numbers print differently. */
  lemma DecimalInjective(a: nat, b: nat)
    requires DecimalString(a) == DecimalString(b)
    ensures a == b
  {
    DecimalRoundTrip(a);
    DecimalRoundTrip(b);
  }

  /** The numbering part of candidate `i`: nothing for the first, `_<i>` after. */
  function Numbering(i: nat): (text: string)
    ensures i == 0 <==> text == []
  {
    if i == 0 then "" else "_" + DecimalString(i)
  }

  /** Every index after the first is numbered `_` and then its decimal text. */
  lemma NumberingText(i: nat)
    requires i > 0
    ensures |Numbering(i)| >= 2 && Numbering(i)[0] == '_'
    ensures forall k :: 1 <= k < |Numbering(i)| ==> '0' <= Numbering(i)[k] <= '9'
    ensures Numbering(i)[1] != '0'
    ensures DecimalValue(Numbering(i)[1..]) == i
  {
    DecimalRoundTrip(i);
    assert Numbering(i)[1..] == DecimalString(i);
  }

  /** Candidate `i` (lines 10-15 and 30-35): `./<screenName>-<currentDate>`, the numbering, then the extension. */
  function Candidate(screenName: string, currentDate: string, i: nat, extension: string): string
  {
    "./" + screenName + "-" + currentDate + Numbering(i) + extension
  }

  /** Different indices give different candidates, so the search never sees a name twice. */
  lemma CandidateInjective(screenName: string, currentDate: string, extension: string, i: nat, j: nat)
    requires Candidate(screenName, currentDate, i, extension) == Candidate(screenName, currentDate, j, extension)
    ensures i == j
  {
    var prefix := "./" + screenName + "-" + currentDate;
    var a, b := Numbering(i), Numbering(j);
    var x, y := Candidate(screenName, currentDate, i, extension), Candidate(screenName, currentDate, j, extension);
    assert x == prefix + a + extension && y == prefix + b + extension;
    assert |a| == |b|;
    assert a == x[|prefix|..|prefix| + |a|];
    assert b == y[|prefix|..|prefix| + |b|];
    if i != 0 && j != 0 {
      assert a[1..] == DecimalString(i);
      assert b[1..] == DecimalString(j);
      DecimalInjective(i, j);
    }
  }

  /** The directory names number the same way as the file names, without the suffix. */
  lemma DirectoryNamesMatchFileNames(screenName: string, currentDate: string, i: nat)
    ensures Candidate(screenName, currentDate, i, ".json") == Candidate(screenName, currentDate, i, "") + ".json"
  {
  }

  /** `name` is candidate `i`, free, and every earlier candidate is taken. */
  ghost predicate FirstFreeAt(name: string, screenName: string, currentDate: string, extension: string, existing: set<string>, i: nat)
  {
    && name == Candidate(screenName, currentDate, i, extension)
    && name !in existing
    && forall k :: 0 <= k < i ==> Candidate(screenName, currentDate, k, extension) in existing
  }

  /** `name` is the first candidate that does not exist yet. */
  ghost predicate FirstFree(name: string, screenName: string, currentDate: string, extension: string, existing: set<string>)
  {
    exists i: nat :: FirstFreeAt(name, screenName, currentDate, extension, existing, i)
  }

  /** There is only one first free candidate. */
  lemma FirstFreeUnique(a: string, b: string, screenName: string, currentDate: string, extension: string, existing: set<string>)
    requires FirstFree(a, screenName, currentDate, extension, existing)
    requires FirstFree(b, screenName, currentDate, extension, existing)
    ensures a == b
  {
    var i: nat :| FirstFreeAt(a, screenName, currentDate, extension, existing, i);
    var j: nat :| FirstFreeAt(b, screenName, currentDate, extension, existing, j);
    assert Candidate(screenName, currentDate, i, extension) !in existing;
    assert Candidate(screenName, currentDate, j, extension) !in existing;
  }

  /** The candidates before index `i`. */
  ghost function CandidatesBelow(screenName: string, currentDate: string, extension: string, i: nat): set<string>
  {
    if i == 0 then {} else CandidatesBelow(screenName, currentDate, extension, i - 1) + {Candidate(screenName, currentDate, i - 1, extension)}
  }

  /** Candidate `i` is none of the candidates before it. */
  lemma {:induction false} NotBelow(screenName: string, currentDate: string, extension: string, i: nat, k: nat)
    requires i <= k
    ensures Candidate(screenName, currentDate, k, extension) !in CandidatesBelow(screenName, currentDate, extension, i)
  {
    if i > 0 {
      NotBelow(screenName, currentDate, extension, i - 1, k);
      if Candidate(screenName, currentDate, k, extension) == Candidate(screenName, currentDate, i - 1, extension) {
        CandidateInjective(screenName, currentDate, extension, k, i - 1);
      }
    }
  }

  /**
   * Lines 9-22 (and 29-42): try candidates 0, 1, 2, ... until one does not
   * exist. The loop has no bound in the source; it ends because only finitely
   * many names exist and the candidates are all different.
   */
  method FirstFreeName(screenName: string, currentDate: string, extension: string, existing: set<string>)
    returns (filename: string)
    ensures FirstFree(filename, screenName, currentDate, extension, existing)
  {
    var i := 0;
    ghost var tried: set<string> := {};
    filename := Candidate(screenName, currentDate, 0, extension);
    while filename in existing
      invariant filename == Candidate(screenName, currentDate, i, extension)
      invariant forall k :: 0 <= k < i ==> Candidate(screenName, currentDate, k, extension) in existing
      invariant tried == CandidatesBelow(screenName, currentDate, extension, i)
      invariant tried <= existing
      decreases |existing - tried|
    {
      NotBelow(screenName, currentDate, extension, i, i);
      assert existing - (tried + {filename}) == (existing - tried) - {filename};
      tried := tried + {filename};
      i := i + 1;
      filename := Candidate(screenName, currentDate, i, extension);
    }
    assert FirstFreeAt(filename, screenName, currentDate, extension, existing, i);
  }

  /** `createFileName`: the first free `./<screenName>-<date>[_<i>].json`. */
  method CreateFileName(screenName: string, currentDate: string, existing: set<string>) returns (filename: string)
    ensures FirstFree(filename, screenName, currentDate, ".json", existing)
  {
    filename := FirstFreeName(screenName, currentDate, ".json", existing);
  }

  /** `createDirName`: the first free `./<screenName>-<date>[_<i>]`. */
  method CreateDirName(screenName: string, currentDate: string, existing: set<string>) returns (dirname: string)
    ensures FirstFree(dirname, screenName, currentDate, "", existing)
  {
    dirname := FirstFreeName(screenName, currentDate, "", existing);
  }
}
