/** The command line of the memory replay sample
    (samples/csharp.memreplay/Program.cs, Main): options that take a value
    (-s server, -m memory stream, -r RAM size in MiB), the switch -h, and
    the store name as last, unnamed argument. */
module ProgramArgs {
  import opened Wrappers
  import opened Exceptions
  import opened Decimal

  const Unnamed: string := "unnamed"
  const Two32: nat := 0x1_0000_0000

  /** The options that take a value, with their defaults. */
  function Defaults(): (values: map<string, string>)
    ensures values.Keys == {"-s", "-m", "-r"}
  {
    map["-s" := "local:/tmp/.simutrace", "-m" := "mem_cpu_store_dphys", "-r" := "512"]
  }

  /** What the command line asks for: the help text, or a replay. */
  datatype Command =
    | Help
    | Launch(server: string, store: string, memoryStream: string, ramSizeInMiB: nat)

  /** The state of the argument loop: the option values, the -h switch,
      and the option still waiting for its value. */
  datatype Scan = Scan(values: map<string, string>, help: bool, expectValue: bool, expectArg: string)

  /** The argument loop from argument i on. An option or switch while a
      value is expected, and a value that starts with '-', end the loop
      early; an unnamed argument that is not last or starts with '-'
      throws; an empty argument where its first character is read throws
      IndexOutOfRangeException. */
  function ScanArgs(args: seq<string>, i: nat, st: Scan): (r: Result<Scan, Exception>)
    requires i <= |args|
    ensures r.Ok? ==> st.values.Keys <= r.value.values.Keys
    decreases |args| - i
  {
    if i == |args| then Ok(st)
    else
      var a := args[i];
      if a in st.values then
        if st.expectValue then Ok(st) else ScanArgs(args, i + 1, st.(expectValue := true, expectArg := a))
      else if a == "-h" then
        if st.expectValue then Ok(st) else ScanArgs(args, i + 1, st.(help := true))
      else if st.expectValue then
        if |a| == 0 then Err(IndexOutOfRange)
        else if a[0] == '-' then Ok(st)
        else ScanArgs(args, i + 1, st.(expectValue := false, values := st.values[st.expectArg := a]))
      else if i == |args| - 1 && |a| == 0 then Err(IndexOutOfRange)
      else if i == |args| - 1 && a[0] != '-' then ScanArgs(args, i + 1, st.(values := st.values[Unnamed := a]))
      else Err(CommandLine("Unknown argument '" + a + "'"))
  }

  /** White space as the .NET number parser skips it: the space and the
      characters from tab to carriage return. */
  predicate IsWhite(c: char) { c == ' ' || '\t' <= c <= '\r' }

  predicate AllWhite(s: string) { forall i :: 0 <= i < |s| ==> IsWhite(s[i]) }

  /** A non-empty string of decimal digits. */
  predicate IsDigits(s: string) { |s| > 0 && forall i :: 0 <= i < |s| ==> IsDigit(s[i]) }

  /** s without its leading white space. */
  function TrimStart(s: string): (r: string)
    ensures |r| <= |s| && (|r| > 0 ==> !IsWhite(r[0]))
    decreases |s|
  {
    if |s| > 0 && IsWhite(s[0]) then TrimStart(s[1..]) else s
  }

  /** s without its trailing white space. */
  function TrimEnd(s: string): (r: string)
    ensures |r| <= |s| && (|r| > 0 ==> !IsWhite(r[|r| - 1]))
    decreases |s|
  {
    if |s| > 0 && IsWhite(s[|s| - 1]) then TrimEnd(s[..|s| - 1]) else s
  }

  /** The value of the digits d as a UInt32 with the given sign: a value of
      2^32 or more overflows, and a negative sign is only allowed on zero. */
  function SignedValue(negative: bool, d: string): (r: Option<nat>)
    requires IsDigits(d)
    ensures r.Some? ==> r.value < Two32 && (r.value == DigitsValue(d) || (negative && r.value == 0))
  {
    if negative then (if DigitsValue(d) == 0 then Some(0) else None)
    else if DigitsValue(d) < Two32 then Some(DigitsValue(d)) else None
  }

  /** Convert.ToUInt32 (NumberStyles.Integer): leading and trailing white
      space, then an optional '+' or '-' sign and at least one decimal
      digit. Anything else is a FormatException; a value of 2^32 or more,
      or a negative one, is an OverflowException. Both are reported as
      None. */
  function ParseUInt32(s: string): (r: Option<nat>)
    ensures r.Some? ==> r.value < Two32
  {
    ParseTrimmed(TrimEnd(TrimStart(s)))
  }

  /** The number itself, once the white space around it is removed. */
  function ParseTrimmed(t: string): (r: Option<nat>)
    ensures r.Some? ==> r.value < Two32
  {
    if IsDigits(t) then SignedValue(false, t)
    else if |t| > 0 && (t[0] == '+' || t[0] == '-') && IsDigits(t[1..]) then SignedValue(t[0] == '-', t[1..])
    else None
  }

  /** TrimStart removes a prefix of white space. */
  lemma {:induction false} TrimStartSplit(s: string)
    ensures var r := TrimStart(s); s == s[..|s| - |r|] + r && AllWhite(s[..|s| - |r|])
    decreases |s|
  {
    if |s| > 0 && IsWhite(s[0]) {
      TrimStartSplit(s[1..]);
      var r := TrimStart(s[1..]);
      assert s[..|s| - |r|] == [s[0]] + s[1..][..|s| - 1 - |r|];
    }
  }

  /** TrimEnd removes a suffix of white space. */
  lemma {:induction false} TrimEndSplit(s: string)
    ensures var r := TrimEnd(s); s == r + s[|r|..] && AllWhite(s[|r|..])
    decreases |s|
  {
    if |s| > 0 && IsWhite(s[|s| - 1]) {
      var p := s[..|s| - 1];
      TrimEndSplit(p);
      var r := TrimEnd(p);
      assert r == s[..|r|];
      assert s[|r|..] == p[|r|..] + [s[|s| - 1]];
    }
  }

  /** White space before a string that starts with something else is
      what TrimStart removes. */
  lemma {:induction false} TrimStartPadded(w: string, x: string)
    requires AllWhite(w) && (|x| > 0 ==> !IsWhite(x[0]))
    ensures TrimStart(w + x) == x
    decreases |w|
  {
    if |w| > 0 {
      assert (w + x)[1..] == w[1..] + x;
      TrimStartPadded(w[1..], x);
    } else {
      assert w + x == x;
    }
  }

  /** White space after a string that ends with something else is what
      TrimEnd removes. */
  lemma {:induction false} TrimEndPadded(x: string, w: string)
    requires AllWhite(w) && (|x| > 0 ==> !IsWhite(x[|x| - 1]))
    ensures TrimEnd(x + w) == x
    decreases |w|
  {
    if |w| > 0 {
      assert (x + w)[..|x + w| - 1] == x + w[..|w| - 1];
      TrimEndPadded(x, w[..|w| - 1]);
    } else {
      assert x + w == x;
    }
  }

  /** A plain string of digits is read as its value, unless that
      overflows 32 bits. */
  lemma ParseDigits(d: string)
    requires IsDigits(d)
    ensures ParseUInt32(d) == if DigitsValue(d) < Two32 then Some(DigitsValue(d)) else None
  {
    TrimStartPadded("", d);
    TrimEndPadded(d, "");
    assert "" + d == d && d + "" == d;
  }

  /** Trimming white space around a string that neither starts nor ends
      with white space leaves that string. */
  lemma TrimPadded(w1: string, b: string, w2: string)
    requires AllWhite(w1) && AllWhite(w2) && |b| > 0 && !IsWhite(b[0]) && !IsWhite(b[|b| - 1])
    ensures TrimEnd(TrimStart(w1 + b + w2)) == b
  {
    assert w1 + b + w2 == w1 + (b + w2);
    assert (b + w2)[0] == b[0];
    TrimStartPadded(w1, b + w2);
    TrimEndPadded(b, w2);
  }

  /** A sign before the digits: '+' keeps their value, '-' only allows
      zero. */
  lemma SignedTrimmed(sign: string, d: string)
    requires IsDigits(d) && sign in {"", "+", "-"}
    ensures ParseTrimmed(sign + d) == SignedValue(sign == "-", d)
  {
    if sign != "" {
      assert (sign + d)[1..] == d && !IsDigit((sign + d)[0]);
    } else {
      assert sign + d == d;
    }
  }

  /** White space around the digits and a leading '+' do not change the
      value read (that of the digits alone, by ParseDigits); a leading '-'
      is only accepted on zero. */
  lemma ParsePadded(w1: string, sign: string, d: string, w2: string)
    requires AllWhite(w1) && AllWhite(w2) && IsDigits(d) && sign in {"", "+", "-"}
    ensures ParseUInt32(w1 + sign + d + w2) == SignedValue(sign == "-", d)
  {
    var b := sign + d;
    SignedEnds(sign, d);
    TrimPadded(w1, b, w2);
    assert w1 + sign + d + w2 == w1 + b + w2;
    SignedTrimmed(sign, d);
  }

  /** A signed number neither starts nor ends with white space. */
  lemma SignedEnds(sign: string, d: string)
    requires IsDigits(d) && sign in {"", "+", "-"}
    ensures var b := sign + d; |b| > 0 && !IsWhite(b[0]) && !IsWhite(b[|b| - 1])
  {
    var b := sign + d;
    assert b[|b| - 1] == d[|d| - 1];
    assert b[0] == if sign == "" then d[0] else sign[0];
  }

  /** Conversely, every string that ParseUInt32 accepts has that form:
      white space, an optional sign, digits and white space, and its value
      is the signed value of those digits. */
  lemma ParseAccepted(s: string) returns (w1: string, sign: string, d: string, w2: string)
    requires ParseUInt32(s).Some?
    ensures AllWhite(w1) && AllWhite(w2) && IsDigits(d) && sign in {"", "+", "-"}
    ensures s == w1 + sign + d + w2 && ParseUInt32(s) == SignedValue(sign == "-", d)
  {
    var u := TrimStart(s);
    var t := TrimEnd(u);
    TrimStartSplit(s);
    TrimEndSplit(u);
    w1, w2 := s[..|s| - |u|], u[|t|..];
    assert ParseUInt32(s) == ParseTrimmed(t);
    if IsDigits(t) {
      sign, d := "", t;
    } else {
      sign, d := if t[0] == '+' then "+" else "-", t[1..];
    }
    assert t == sign + d;
    SignedTrimmed(sign, d);
    assert s == w1 + (sign + d + w2) by {
      assert u == t + w2;
    }
    Regrouped(w1, sign, d, w2);
  }

  lemma Regrouped(a: string, b: string, c: string, e: string)
    ensures a + (b + c + e) == a + b + c + e
  {
  }

  /** The outcome of Main's command line handling for args. */
  function CommandLineOf(args: seq<string>): (r: Result<Command, Exception>)
  {
    match ScanArgs(args, 0, Scan(Defaults(), false, false, ""))
    case Err(e) => Err(e)
    case Ok(st) =>
      if st.expectValue then Err(CommandLine("Expected value for argument '" + st.expectArg + "'"))
      else if st.help then Ok(Help)
      else if Unnamed !in st.values then Err(CommandLine("Store name expected."))
      else
        match ParseUInt32(st.values["-r"])
        case None => Err(CommandLine("Invalid ram size."))
        case Some(n) => Ok(Launch(st.values["-s"], st.values[Unnamed], st.values["-m"], n))
  }

  /** Main's argument loop and the checks after it. */
  method ParseCommandLine(args: seq<string>) returns (r: Result<Command, Exception>)
    ensures r == CommandLineOf(args)
  {
    var values := Defaults();
    var help := false;
    var expectValue := false;
    var expectArg := "";
    for i := 0 to |args|
      invariant ScanArgs(args, 0, Scan(Defaults(), false, false, ""))
                == ScanArgs(args, i, Scan(values, help, expectValue, expectArg))
      invariant Defaults().Keys <= values.Keys
    {
      var a := args[i];
      if a in values {
        if expectValue {
          break;
        }
        expectValue := true;
        expectArg := a;
      } else if a == "-h" {
        if expectValue {
          break;
        }
        help := true;
      } else if expectValue {
        if |a| == 0 {
          return Err(IndexOutOfRange);
        }
        if a[0] == '-' {
          break;
        }
        expectValue := false;
        values := values[expectArg := a];
      } else {
        if i == |args| - 1 && |a| == 0 {
          return Err(IndexOutOfRange);
        }
        if i == |args| - 1 && a[0] != '-' {
          values := values[Unnamed := a];
        } else {
          return Err(CommandLine("Unknown argument '" + a + "'"));
        }
      }
    }

    if expectValue {
      return Err(CommandLine("Expected value for argument '" + expectArg + "'"));
    } else if help {
      return Ok(Help);
    } else if Unnamed !in values {
      return Err(CommandLine("Store name expected."));
    }
    var ramSize := ParseUInt32(values["-r"]);
    if ramSize.None? {
      return Err(CommandLine("Invalid ram size."));
    }
    r := Ok(Launch(values["-s"], values[Unnamed], values["-m"], ramSize.value));
  }

  /** The unnamed value is only ever set from the last argument. */
  lemma {:induction false} ScanUnnamed(args: seq<string>, i: nat, st: Scan)
    requires i <= |args| && Unnamed !in st.values && (st.expectValue ==> st.expectArg != Unnamed)
    requires ScanArgs(args, i, st).Ok?
    ensures var v := ScanArgs(args, i, st).value.values;
            Unnamed in v ==> |args| > 0 && v[Unnamed] == args[|args| - 1]
    decreases |args| - i
  {
    if i < |args| {
      var a := args[i];
      if a in st.values {
        if !st.expectValue {
          ScanUnnamed(args, i + 1, st.(expectValue := true, expectArg := a));
        }
      } else if a == "-h" {
        if !st.expectValue {
          ScanUnnamed(args, i + 1, st.(help := true));
        }
      } else if st.expectValue {
        if |a| > 0 && a[0] != '-' {
          ScanUnnamed(args, i + 1, st.(expectValue := false, values := st.values[st.expectArg := a]));
        }
      }
    }
  }

  /** A replay is launched on the store named by the last argument. */
  lemma StoreIsLast(args: seq<string>)
    requires CommandLineOf(args).Ok? && CommandLineOf(args).value.Launch?
    ensures |args| > 0 && CommandLineOf(args).value.store == args[|args| - 1]
  {
    ScanUnnamed(args, 0, Scan(Defaults(), false, false, ""));
  }

  /** An option keeps its default unless some argument names it and the
      argument after it is its value. */
  lemma {:induction false} ScanOptionValues(args: seq<string>, i: nat, st: Scan, k: string)
    requires i <= |args| && k in Defaults() && k in st.values
    requires st.values[k] == Defaults()[k] || exists j :: 0 <= j && j + 1 < i && args[j] == k && args[j + 1] == st.values[k]
    requires st.expectValue ==> 0 < i && args[i - 1] == st.expectArg
    requires ScanArgs(args, i, st).Ok?
    ensures var v := ScanArgs(args, i, st).value.values;
            k in v &&
            (v[k] == Defaults()[k] || exists j :: 0 <= j && j + 1 < |args| && args[j] == k && args[j + 1] == v[k])
    decreases |args| - i
  {
    if i < |args| {
      var a := args[i];
      if a in st.values {
        if !st.expectValue {
          ScanOptionValues(args, i + 1, st.(expectValue := true, expectArg := a), k);
        }
      } else if a == "-h" {
        if !st.expectValue {
          ScanOptionValues(args, i + 1, st.(help := true), k);
        }
      } else if st.expectValue {
        if |a| > 0 && a[0] != '-' {
          var st' := st.(expectValue := false, values := st.values[st.expectArg := a]);
          if st.expectArg == k {
            assert args[i - 1] == k && args[i] == st'.values[k];
          }
          ScanOptionValues(args, i + 1, st', k);
        }
      } else if i == |args| - 1 && |a| > 0 && a[0] != '-' {
        ScanOptionValues(args, i + 1, st.(values := st.values[Unnamed := a]), k);
      }
    }
  }

  /** The server, memory stream and RAM size of a launched replay are the
      defaults or taken from the argument after their option. */
  lemma OptionValuesFollowOptions(args: seq<string>)
    requires CommandLineOf(args).Ok? && CommandLineOf(args).value.Launch?
    ensures var c := CommandLineOf(args).value;
            (c.server == Defaults()["-s"] ||
             exists j :: 0 <= j && j + 1 < |args| && args[j] == "-s" && args[j + 1] == c.server) &&
            (c.memoryStream == Defaults()["-m"] ||
             exists j :: 0 <= j && j + 1 < |args| && args[j] == "-m" && args[j + 1] == c.memoryStream) &&
            (c.ramSizeInMiB == 512 ||
             exists j :: 0 <= j && j + 1 < |args| && args[j] == "-r" && ParseUInt32(args[j + 1]) == Some(c.ramSizeInMiB))
  {
    var st := Scan(Defaults(), false, false, "");
    ScanOptionValues(args, 0, st, "-s");
    ScanOptionValues(args, 0, st, "-m");
    ScanOptionValues(args, 0, st, "-r");
    assert DigitsValue("512") == 512 by {
      assert "512"[..2] == "51" && "51"[..1] == "5" && "5"[..0] == "";
    }
  }

  /** With only a store name, every option takes its default: the local
      server socket, the stream mem_cpu_store_dphys and 512 MiB of RAM. */
  lemma DefaultsOnly(store: string)
    requires |store| > 0 && store[0] != '-'
    ensures CommandLineOf([store]) == Ok(Launch("local:/tmp/.simutrace", store, "mem_cpu_store_dphys", 512))
  {
    var st := Scan(Defaults(), false, false, "");
    assert store !in st.values;
    assert ScanArgs([store], 0, st) == Ok(st.(values := st.values[Unnamed := store]));
    assert DigitsValue("512") == 512 by {
      assert "512"[..2] == "51" && "51"[..1] == "5" && "5"[..0] == "";
    }
  }

  /** An option, the switch or an argument starting with '-' where a value
      is expected stops the loop, and the option is reported as missing
      its value, whatever follows. */
  lemma OptionWithoutValue(k: string, next: string, rest: seq<string>)
    requires k in Defaults() && (next in Defaults() || next == "-h" || (|next| > 0 && next[0] == '-'))
    ensures CommandLineOf([k, next] + rest) == Err(CommandLine("Expected value for argument '" + k + "'"))
  {
    var args := [k, next] + rest;
    var st := Scan(Defaults(), false, false, "");
    assert args[0] == k && args[1] == next;
    var st1 := st.(expectValue := true, expectArg := k);
    assert ScanArgs(args, 0, st) == ScanArgs(args, 1, st1);
    assert ScanArgs(args, 1, st1) == Ok(st1);
  }

  /** An option as last argument is missing its value. */
  lemma OptionLast(k: string)
    requires k in Defaults()
    ensures CommandLineOf([k]) == Err(CommandLine("Expected value for argument '" + k + "'"))
  {
    var st := Scan(Defaults(), false, false, "");
    assert ScanArgs([k], 0, st) == ScanArgs([k], 1, st.(expectValue := true, expectArg := k));
  }

  /** An argument that is neither option nor switch nor an expected value
      is rejected unless it is the last one. */
  lemma UnknownArgument(a: string, rest: seq<string>)
    requires a !in Defaults() && a != "-h" && |rest| > 0
    ensures CommandLineOf([a] + rest) == Err(CommandLine("Unknown argument '" + a + "'"))
  {
    assert ([a] + rest)[0] == a;
  }

  /** The -h switch asks for the help text, even without a store name; no
      arguments at all lack the store name. */
  lemma HelpAndMissingStore()
    ensures CommandLineOf(["-h"]) == Ok(Help)
    ensures CommandLineOf([]) == Err(CommandLine("Store name expected."))
  {
    var st := Scan(Defaults(), false, false, "");
    assert ScanArgs(["-h"], 0, st) == ScanArgs(["-h"], 1, st.(help := true));
  }

  /** A RAM size that is not a decimal number is rejected. */
  lemma InvalidRamSize(store: string)
    requires |store| > 0 && store[0] != '-'
    ensures CommandLineOf(["-r", "lots", store]) == Err(CommandLine("Invalid ram size."))
  {
    var st := Scan(Defaults(), false, false, "");
    var st1 := st.(expectValue := true, expectArg := "-r");
    var lots := ["-r", "lots", store];
    assert ScanArgs(lots, 0, st) == ScanArgs(lots, 1, st1);
    var st2 := st1.(expectValue := false, values := st1.values["-r" := "lots"]);
    assert ScanArgs(lots, 1, st1) == ScanArgs(lots, 2, st2);
    assert ScanArgs(lots, 2, st2) == ScanArgs(lots, 3, st2.(values := st2.values[Unnamed := store]));
    assert TrimStart("lots") == "lots" && TrimEnd("lots") == "lots";
    assert !IsDigit("lots"[0]);
  }

  /** A RAM size with a '+' sign and white space around it is read like
      the plain number. */
  lemma SignedRamSize(store: string)
    requires |store| > 0 && store[0] != '-'
    ensures CommandLineOf(["-r", " +512 ", store]) == Ok(Launch("local:/tmp/.simutrace", store, "mem_cpu_store_dphys", 512))
  {
    var st := Scan(Defaults(), false, false, "");
    var st1 := st.(expectValue := true, expectArg := "-r");
    var args := ["-r", " +512 ", store];
    assert ScanArgs(args, 0, st) == ScanArgs(args, 1, st1);
    var st2 := st1.(expectValue := false, values := st1.values["-r" := " +512 "]);
    assert ScanArgs(args, 1, st1) == ScanArgs(args, 2, st2);
    assert ScanArgs(args, 2, st2) == ScanArgs(args, 3, st2.(values := st2.values[Unnamed := store]));
    PaddedRamSize();
  }

  /** " +512 " is read as 512. */
  lemma PaddedRamSize()
    ensures ParseUInt32(" +512 ") == Some(512)
  {
    assert " +512 " == " " + "+" + "512" + " ";
    ParsePadded(" ", "+", "512", " ");
    assert DigitsValue("512") == 512 by {
      assert "512"[..2] == "51" && "51"[..1] == "5" && "5"[..0] == "";
    }
  }

  /** An empty argument where a value is expected is read at index 0 and
      throws IndexOutOfRangeException. */
  lemma EmptyValue(k: string)
    requires k in Defaults()
    ensures CommandLineOf([k, ""]) == Err(IndexOutOfRange)
  {
    var st := Scan(Defaults(), false, false, "");
    assert ScanArgs([k, ""], 0, st) == ScanArgs([k, ""], 1, st.(expectValue := true, expectArg := k));
  }
}
