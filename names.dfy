/** Names of the per-thread output files: "<outname>_<j>.dat", with j in %d form. */
module Names {
  import opened Base

  predicate IsDigit(c: char)
  {
    '0' <= c <= '9'
  }

  function DigitChar(d: nat): (c: char)
    requires d < 10
    ensures IsDigit(c)
  {
    (48 + d) as char
  }

  function DigitValue(c: char): (d: nat)
    requires IsDigit(c)
    ensures d < 10 && DigitChar(d) == c
  {
    (c as int - 48) as nat
  }

  /** %d of a non-negative int: at least one digit, and no leading zero. */
  function Decimal(n: nat): (r: string)
    ensures |r| >= 1
    ensures forall k :: 0 <= k < |r| ==> IsDigit(r[k])
    ensures r[0] == '0' ==> n == 0 && |r| == 1
    ensures n == 0 ==> r == "0"
    decreases n
  {
    if n < 10 then [DigitChar(n)] else Decimal(n / 10) + [DigitChar(n % 10)]
  }

  /** The number a run of decimal digits denotes. */
  function DecimalValue(s: string): nat
    requires forall k :: 0 <= k < |s| ==> IsDigit(s[k])
    decreases |s|
  {
    if s == [] then 0 else DecimalValue(s[..|s| - 1]) * 10 + DigitValue(s[|s| - 1])
  }

  /** Reading back what Decimal wrote gives the number. */
  lemma {:induction false} DecimalRoundTrip(n: nat)
    ensures DecimalValue(Decimal(n)) == n
    decreases n
  {
    var r := Decimal(n);
    if n < 10 {
      assert r[..0] == [];
    } else {
      DecimalRoundTrip(n / 10);
      assert r[..|r| - 1] == Decimal(n / 10);
    }
  }

  lemma DecimalInjective(a: nat, b: nat)
    requires Decimal(a) == Decimal(b)
    ensures a == b
  {
    DecimalRoundTrip(a);
    DecimalRoundTrip(b);
  }

  /** The output file of thread j. */
  function FileName(outname: string, j: nat): (r: string)
    ensures |r| == |outname| + |Decimal(j)| + 5
    ensures r[..|outname|] == outname && r[|outname|] == '_'
    ensures r[|outname| + 1..|r| - 4] == Decimal(j) && r[|r| - 4..] == ".dat"
  {
    outname + "_" + Decimal(j) + ".dat"
  }

  /** The thread index a file name stands for, if it has the form FileName produces. */
  function ThreadOfFileName(outname: string, name: string): Option<nat>
  {
    var p := |outname|;
    if |name| >= p + 6 && name[..p] == outname && name[p] == '_' && name[|name| - 4..] == ".dat" &&
       forall k :: p + 1 <= k < |name| - 4 ==> IsDigit(name[k])
    then
      var digits := name[p + 1..|name| - 4];
      assert forall k :: 0 <= k < |digits| ==> digits[k] == name[p + 1 + k];
      Some(DecimalValue(digits))
    else None
  }

  /** A file name gives back its thread index, so distinct threads never share a file. */
  lemma FileNameRoundTrip(outname: string, j: nat)
    ensures ThreadOfFileName(outname, FileName(outname, j)) == Some(j)
  {
    var name, p, d := FileName(outname, j), |outname|, Decimal(j);
    assert name[..p] == outname;
    assert name[p] == '_';
    assert name[|name| - 4..] == ".dat";
    assert name[p + 1..|name| - 4] == d;
    assert forall k :: p + 1 <= k < |name| - 4 ==> name[k] == d[k - p - 1];
    DecimalRoundTrip(j);
  }

  lemma FileNameInjective(outname: string, j1: nat, j2: nat)
    requires FileName(outname, j1) == FileName(outname, j2)
    ensures j1 == j2
  {
    FileNameRoundTrip(outname, j1);
    FileNameRoundTrip(outname, j2);
  }
}
