/**
 * img_builder/get_partition_info.py: the byte offset or size of one
 * partition of a disk image. The partition-table library is outside the
 * model: whether the image file exists, the device's sector size and the
 * partitions' sector geometry are passed in.
 */
module PartitionInfo {
  import opened Wrappers
  import opened CLib

  /** A partition's first and last sector, both inclusive. */
  datatype Geometry = Geometry(start: int, end: int)

  /**
   * How a run ends. `Printed` exits with status 0; every other outcome exits
   * with status 1, either through `sys.exit(1)` after a message or through an
   * uncaught exception (`BadIndex` from `int()`, `SectorSizeError` from the
   * warning's reference to the missing attribute `sector_size`,
   * `IndexOutOfRange` from the list subscript).
   */
  datatype Outcome =
    | Usage
    | BadIndex
    | NoImage
    | BadRequest
    | SectorSizeError
    | IndexTooLarge
    | IndexOutOfRange
    | Printed(value: int)

  function ExitStatus(o: Outcome): nat
  {
    if o.Printed? then 0 else 1
  }

  /** The string with white space removed from both ends, as `str.strip()` does. */
  function Strip(s: seq<char>): (r: seq<char>)
    ensures r != [] ==> !IsSpace(r[0]) && !IsSpace(r[|r| - 1])
  {
    TrimEnd(SkipSpaces(s))
  }

  /** The string with white space removed from its end. */
  function TrimEnd(t: seq<char>): (r: seq<char>)
    ensures r != [] ==> t != [] && r[0] == t[0] && !IsSpace(r[|r| - 1])
  {
    if t != [] && IsSpace(t[|t| - 1]) then TrimEnd(t[..|t| - 1]) else t
  }

  predicate AllDigits(s: seq<char>)
  {
    forall k :: 0 <= k < |s| ==> IsDigit(s[k])
  }

  /** Python's `int()` on a string: optional white space around an optional sign and decimal digits. */
  function PyInt(s: seq<char>): (r: Option<int>)
  {
    SignedDecimal(Strip(s))
  }

  /** An optional sign and then one or more decimal digits, nothing else. */
  function SignedDecimal(t: seq<char>): (r: Option<int>)
  {
    if t != [] && t[0] == '-' then Negated(Unsigned(t[1..]))
    else if t != [] && t[0] == '+' then Unsigned(t[1..])
    else Unsigned(t)
  }

  /** One or more decimal digits, nothing else. */
  function Unsigned(digits: seq<char>): (r: Option<int>)
  {
    if digits == [] || !AllDigits(digits) then None else Some(DecimalValue(digits))
  }

  function Negated(v: Option<int>): Option<int>
  {
    if v.None? then None else Some(-v.value)
  }

  /** Stripping leaves a string alone that starts and ends with something other than white space. */
  lemma StripUnchanged(s: seq<char>)
    requires s != [] && !IsSpace(s[0]) && !IsSpace(s[|s| - 1])
    ensures Strip(s) == s
  {
    assert SkipSpaces(s) == s;
    assert TrimEnd(s) == s;
  }

  /** `int()` reads back a natural number written in decimal ... */
  lemma PyIntReadsNatural(n: nat)
    ensures PyInt(Numeral(n, 10)) == Some(n)
  {
    DecimalNumeral(n);
    PyIntReadsDigits(Numeral(n, 10), n);
  }

  /** ... and a negative one written with a minus sign. */
  lemma PyIntReadsNegative(m: nat)
    ensures PyInt("-" + Numeral(m, 10)) == Some(-(m as int))
  {
    DecimalNumeral(m);
    PyIntReadsMinusDigits(Numeral(m, 10), m);
  }

  /** A run of digits reads as its decimal value ... */
  lemma PyIntReadsDigits(ds: seq<char>, n: nat)
    requires ds != [] && AllDigits(ds) && DecimalValue(ds) == n
    ensures PyInt(ds) == Some(n)
  {
    assert IsDigit(ds[0]) && IsDigit(ds[|ds| - 1]);
    StripUnchanged(ds);
  }

  /** ... and after a minus sign as the negated value. */
  lemma PyIntReadsMinusDigits(ds: seq<char>, m: nat)
    requires ds != [] && AllDigits(ds) && DecimalValue(ds) == m
    ensures PyInt("-" + ds) == Some(-(m as int))
  {
    StripMinusDigits(ds);
    SignedMinus(ds);
  }

  lemma StripMinusDigits(ds: seq<char>)
    requires ds != [] && AllDigits(ds)
    ensures Strip("-" + ds) == "-" + ds
  {
    var s := "-" + ds;
    assert IsDigit(ds[|ds| - 1]) && s[|s| - 1] == ds[|ds| - 1];
    StripUnchanged(s);
  }

  lemma SignedMinus(ds: seq<char>)
    ensures SignedDecimal("-" + ds) == Negated(Unsigned(ds))
  {
    assert ("-" + ds)[1..] == ds;
  }

  /** `int()` rejects a string that is all white space ... */
  lemma PyIntRejectsBlank(s: seq<char>)
    requires Strip(s) == []
    ensures PyInt(s) == None
  {
  }

  /** ... and one with anything but a digit after its first character, once stripped. */
  lemma PyIntRejectsNonDigit(s: seq<char>, k: nat)
    requires 0 < k < |Strip(s)| && !IsDigit(Strip(s)[k])
    ensures PyInt(s) == None
  {
    var t := Strip(s);
    if t[0] == '-' || t[0] == '+' {
      assert t[1..][k - 1] == t[k];
    } else {
      assert !AllDigits(t);
    }
  }

  /** Python's `xs[i]` on a list: negative indexes count from the end. */
  function PyIndex<T>(xs: seq<T>, i: int): (r: Option<T>)
    ensures r.Some? <==> -|xs| <= i < |xs|
    ensures 0 <= i < |xs| ==> r == Some(xs[i])
    ensures -|xs| <= i < 0 ==> r == Some(xs[|xs| + i])
  {
    if 0 <= i < |xs| then Some(xs[i])
    else if -|xs| <= i < 0 then Some(xs[|xs| + i])
    else None
  }

  function Offset(g: Geometry, sectorSize: int): int
  {
    g.start * sectorSize
  }

  function Size(g: Geometry, sectorSize: int): int
  {
    (g.end - g.start + 1) * sectorSize
  }

  /**
   * The script on `argv` (the program name first). The checks run in the
   * order the script makes them, and the first that fails decides the
   * outcome.
   */
  function Run(argv: seq<seq<char>>, imageExists: bool, sectorSize: int, partitions: seq<Geometry>): (r: Outcome)
  {
    if |argv| < 4 then Usage
    else
      var index := PyInt(argv[2]);
      var request := argv[3];
      if index.None? then BadIndex
      else if !imageExists then NoImage
      else if request != "offset" && request != "size" then BadRequest
      else if sectorSize != 512 then SectorSizeError
      else if index.value > |partitions| then IndexTooLarge
      else match PyIndex(partitions, index.value)
        case None => IndexOutOfRange
        case Some(part) =>
          Printed(if request == "offset" then Offset(part, sectorSize) else Size(part, sectorSize))
  }

  /** The checks one by one, each in the order the script makes them. */
  lemma RunChecksInOrder(argv: seq<seq<char>>, imageExists: bool, sectorSize: int, partitions: seq<Geometry>)
    ensures |argv| < 4 ==> Run(argv, imageExists, sectorSize, partitions) == Usage
    ensures |argv| >= 4 && PyInt(argv[2]).None? ==> Run(argv, imageExists, sectorSize, partitions) == BadIndex
    ensures |argv| >= 4 && PyInt(argv[2]).Some? && !imageExists ==> Run(argv, imageExists, sectorSize, partitions) == NoImage
    ensures |argv| >= 4 && PyInt(argv[2]).Some? && imageExists && argv[3] !in {"offset", "size"}
            ==> Run(argv, imageExists, sectorSize, partitions) == BadRequest
    ensures |argv| >= 4 && PyInt(argv[2]).Some? && imageExists && argv[3] in {"offset", "size"} && sectorSize != 512
            ==> Run(argv, imageExists, sectorSize, partitions) == SectorSizeError
  {
  }

  /**
   * A run prints exactly when all of the checks pass and the index selects a
   * partition, counting from the end when negative; it prints that
   * partition's offset or size in bytes.
   */
  lemma RunPrintsOffsetOrSize(argv: seq<seq<char>>, imageExists: bool, sectorSize: int, partitions: seq<Geometry>)
    ensures var r := Run(argv, imageExists, sectorSize, partitions);
      r.Printed? <==>
        && |argv| >= 4 && PyInt(argv[2]).Some? && imageExists
        && argv[3] in {"offset", "size"} && sectorSize == 512
        && -|partitions| <= PyInt(argv[2]).value < |partitions|
    ensures var r := Run(argv, imageExists, sectorSize, partitions);
      r.Printed? ==>
        var i := PyInt(argv[2]).value;
        var part := if i >= 0 then partitions[i] else partitions[|partitions| + i];
        r.value == if argv[3] == "offset" then part.start * 512 else (part.end - part.start + 1) * 512
    ensures ExitStatus(Run(argv, imageExists, sectorSize, partitions)) == 0 <==> Run(argv, imageExists, sectorSize, partitions).Printed?
  {
    if |argv| >= 4 && argv[3] !in {"offset", "size"} {
      assert argv[3] != "offset" && argv[3] != "size";
    }
  }

  /**
   * The range check lets an index equal to the number of partitions through;
   * the subscript then fails. An index that would be rejected by `>=` is not
   * caught until the subscript.
   */
  lemma IndexAtLengthPassesCheck(argv: seq<seq<char>>, partitions: seq<Geometry>)
    requires |argv| >= 4 && PyInt(argv[2]) == Some(|partitions|) && argv[3] == "size"
    ensures Run(argv, true, 512, partitions) == IndexOutOfRange
  {
  }

  /** One partition over sectors 2048 to 206847 of a 512-byte-sector image: index -1 is that last partition. */
  lemma ExampleNegativeIndex(argv: seq<seq<char>>)
    requires |argv| >= 4 && PyInt(argv[2]) == Some(-1) && argv[3] == "size"
    ensures Run(argv, true, 512, [Geometry(2048, 206847)]) == Printed(104857600)
  {
  }
}
