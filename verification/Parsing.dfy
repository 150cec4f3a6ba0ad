/** Quantities such as "10M" (concourse/scripts/lib/parsing.rb). */
module Parsing {
  import Decimal
  import opened Collections
  import opened Wrappers

  /** A YAML integer or string. */
  datatype Quantity = Number(value: int) | Text(text: string)

  /** How many factors of 1024 a suffix stands for, in either case. */
  function Multiplier(c: char): Option<nat> {
    if c == 'K' || c == 'k' then Some(1)
    else if c == 'M' || c == 'm' then Some(2)
    else if c == 'G' || c == 'g' then Some(3)
    else if c == 'T' || c == 't' then Some(4)
    else None
  }

  function Pow1024(k: nat): nat { if k == 0 then 1 else 1024 * Pow1024(k - 1) }

  /** One line that is digits and perhaps a suffix, and nothing else. */
  function ParseLine(line: string): Option<nat> {
    if line == "" then None
    else
      var last := Multiplier(line[|line| - 1]);
      var digits := if last.Some? then line[..|line| - 1] else line;
      if digits == "" || !Decimal.AllDigits(digits) then None
      else Some(Decimal.Read(digits) * Pow1024(if last.Some? then last.value else 0))
  }

  /** `^` and `$` match at every line's ends: the first line that parses decides. */
  function ParseText(s: string): Option<nat>
    decreases |s|
  {
    var n := LineEnd(s);
    var here := ParseLine(s[..n]);
    if here.Some? || n == |s| then here else ParseText(s[n + 1..])
  }

  function ParseIntegerQuantity(q: Quantity): Option<int> {
    match q
    case Number(n) => Some(n)
    case Text(s) => match ParseText(s) case Some(n) => Some(n) case None => None
  }

  lemma ParseOneLine(s: string)
    requires OneLine(s)
    ensures ParseText(s) == ParseLine(s)
  {
    hide ParseLine;
    assert s[..|s|] == s;
  }

  predicate IsSuffix(suffix: string) { suffix == "" || (|suffix| == 1 && Multiplier(suffix[0]).Some?) }

  function Factor(suffix: string): nat
    requires IsSuffix(suffix)
  {
    Pow1024(if suffix == "" then 0 else Multiplier(suffix[0]).value)
  }

  lemma ParseSuffixed(digits: string, suffix: string)
    requires digits != "" && Decimal.AllDigits(digits) && IsSuffix(suffix)
    ensures ParseLine(digits + suffix) == Some(Decimal.Read(digits) * Factor(suffix))
  {
    hide Pow1024, Decimal.Read;
    var line := digits + suffix;
    if suffix == "" {
      assert line == digits && Decimal.IsDigit(line[|line| - 1]);
    } else {
      assert line[..|line| - 1] == digits;
    }
  }

  /** Every number written out, with any suffix, is read as that multiple. */
  lemma ParseWritten(n: nat, suffix: string)
    requires IsSuffix(suffix)
    ensures ParseIntegerQuantity(Text(Decimal.Write(n) + suffix)) == Some(n * Factor(suffix))
  {
    hide ParseLine, Factor, Decimal.Read;
    Decimal.ReadWritten(n);
    ParseSuffixed(Decimal.Write(n), suffix);
    ParseOneLine(Decimal.Write(n) + suffix);
  }

  /** The suffixes are the binary multiples, in either case. */
  lemma FactorsAre(suffix: string)
    requires IsSuffix(suffix)
    ensures Factor(suffix) ==
              if suffix == "" then 1
              else if suffix == "K" || suffix == "k" then 1024
              else if suffix == "M" || suffix == "m" then 1_048_576
              else if suffix == "G" || suffix == "g" then 1_073_741_824
              else 1_099_511_627_776
    ensures suffix in ["", "K", "k", "M", "m", "G", "g", "T", "t"]
  {
    assert Pow1024(0) == 1 && Pow1024(1) == 1024;
    assert Pow1024(2) == 1024 * Pow1024(1) && Pow1024(3) == 1024 * Pow1024(2) && Pow1024(4) == 1024 * Pow1024(3);
    if suffix != "" {
      assert suffix == [suffix[0]];
    }
  }

  lemma TenIs()
    ensures Decimal.Write(10) == "10"
  {
    assert Decimal.Write(1) == "1";
    assert Decimal.Write(10) == Decimal.Write(1) + ['0'];
  }

  /** For instance. */
  lemma TenMegabytes()
    ensures ParseIntegerQuantity(Text("10M")) == Some(10_485_760)
  {
    hide Decimal.Write, Factor, ParseText;
    TenIs();
    FactorsAre("M");
    ParseWritten(10, "M");
    assert "10" + "M" == "10M";
  }

  ghost predicate IsQuantity(s: string) {
    exists digits, suffix :: s == digits + suffix && digits != "" && Decimal.AllDigits(digits) && IsSuffix(suffix)
  }

  lemma ParsedIsQuantity(s: string)
    requires ParseLine(s).Some?
    ensures IsQuantity(s)
  {
    hide Decimal.Read, Pow1024;
    var n := |s| - 1;
    if Multiplier(s[n]).Some? {
      assert s == s[..n] + [s[n]] && IsSuffix([s[n]]);
    } else {
      assert s == s + "" && IsSuffix("");
    }
  }

  /** A line is a quantity exactly if it is digits and perhaps a suffix; anything else, a sign or a
      space included, makes the script stop. */
  lemma ParseOneLineIff(s: string)
    requires OneLine(s)
    ensures ParseIntegerQuantity(Text(s)).Some? <==> IsQuantity(s)
  {
    hide ParseLine, Decimal.Read, Factor;
    ParseOneLine(s);
    if IsQuantity(s) {
      var digits, suffix :| s == digits + suffix && digits != "" && Decimal.AllDigits(digits) && IsSuffix(suffix);
      ParseSuffixed(digits, suffix);
    }
    if ParseLine(s).Some? {
      ParsedIsQuantity(s);
    }
  }
}
