/**
 * The command-line parser both directory import scripts share (`parseArgs`):
 * plain arguments are collected in order, `--k` sets a flag, `--k=v` a value.
 */
module Cli {
  import opened Text
  import opened Seqs

  datatype ArgValue = Flag | Value(v: string)

  /** `out`: the positional arguments (`out._`) and the named options. */
  datatype Args = Args(positional: seq<string>, named: map<string, ArgValue>)

  predicate IsOption(a: string) {
    StartsWith(a, "--")
  }

  /** The text after the first `c`; empty when there is none. */
  function After(s: string, c: char): (r: string)
    ensures |r| < |s| || r == ""
  {
    var b := Before(s, c);
    if |b| < |s| then s[|b| + 1..] else ""
  }

  /** `k` of `const [k, v] = a.replace(/^--/, '').split('=')`. */
  function OptionKey(a: string): string
    requires IsOption(a)
  {
    Before(a[2..], '=')
  }

  /** `v` of the same split: the text between the first and the second `=`, or a flag when there is no `=`. */
  function OptionValue(a: string): ArgValue
    requires IsOption(a)
  {
    var body := a[2..];
    if '=' in body then Value(Before(After(body, '='), '=')) else Flag
  }

  /** What `parseArgs` has built after reading `argv`, one argument after another. */
  function ArgsOf(argv: seq<string>): Args {
    if argv == [] then Args([], map[])
    else
      var out := ArgsOf(argv[..|argv| - 1]);
      var a := argv[|argv| - 1];
      if !IsOption(a) then out.(positional := out.positional + [a])
      else out.(named := out.named[OptionKey(a) := OptionValue(a)])
  }

  /** `parseArgs(argv)` (importDirectory.js:29-42; the same loop at uploads/1753775853738-223801080.js:24-41). */
  method ParseArgs(argv: seq<string>) returns (out: Args)
    ensures out == ArgsOf(argv)
  {
    out := Args([], map[]);
    var i := 0;
    while i < |argv|
      invariant 0 <= i <= |argv|
      invariant out == ArgsOf(argv[..i])
    {
      var a := argv[i];
      assert argv[..i + 1][..i] == argv[..i];
      if !IsOption(a) {
        out := out.(positional := out.positional + [a]);
      } else {
        var k := OptionKey(a);
        var v := OptionValue(a);
        out := out.(named := out.named[k := v]);
      }
      i := i + 1;
    }
    assert argv[..i] == argv;
  }

  /** The positional arguments are exactly the non-option ones, in order. */
  lemma {:induction false} PositionalInOrder(argv: seq<string>)
    ensures ArgsOf(argv).positional == Filter(argv, a => !IsOption(a))
  {
    if argv != [] {
      var init := argv[..|argv| - 1];
      var a := argv[|argv| - 1];
      assert argv == init + [a];
      PositionalInOrder(init);
      FilterSnoc(init, a, a => !IsOption(a));
    }
  }

  /**
   * An option is set by its last occurrence: when `argv[i]` is the last option with
   * key `k`, `k` holds that occurrence's value.
   */
  lemma {:induction false} LastOptionWins(argv: seq<string>, i: nat, k: string)
    requires i < |argv| && IsOption(argv[i]) && OptionKey(argv[i]) == k
    requires forall j :: i < j < |argv| && IsOption(argv[j]) ==> OptionKey(argv[j]) != k
    ensures k in ArgsOf(argv).named && ArgsOf(argv).named[k] == OptionValue(argv[i])
  {
    var init := argv[..|argv| - 1];
    if i < |argv| - 1 {
      LastOptionWins(init, i, k);
    }
  }

  /** A key no option names is absent. */
  lemma {:induction false} UnnamedAbsent(argv: seq<string>, k: string)
    requires forall j :: 0 <= j < |argv| && IsOption(argv[j]) ==> OptionKey(argv[j]) != k
    ensures k !in ArgsOf(argv).named
  {
    if argv != [] {
      UnnamedAbsent(argv[..|argv| - 1], k);
    }
  }

  lemma SplitKeyEqualsAB()
    ensures Before("key=a=b", '=') == "key" && After("key=a=b", '=') == "a=b"
  {
    var body := "key=a=b";
    assert body[1..] == "ey=a=b" && body[1..][1..] == "y=a=b" && body[1..][1..][1..] == "=a=b";
    assert Before(body[1..][1..][1..], '=') == "";
  }

  lemma SplitAB()
    ensures Before("a=b", '=') == "a"
  {
    assert "a=b"[1..] == "=b";
  }

  /** Only the text between the first two `=` is kept: `--key=a=b` sets `key` to `a`. */
  lemma SecondEqualsDropsRest()
    ensures IsOption("--key=a=b") && OptionKey("--key=a=b") == "key" && OptionValue("--key=a=b") == Value("a")
  {
    assert "--key=a=b"[2..] == "key=a=b";
    SplitKeyEqualsAB();
    SplitAB();
  }

  /** `!!args[name]`: a flag, or a non-empty value. */
  predicate Truthy(args: Args, name: string) {
    name in args.named && (args.named[name].Flag? || args.named[name].v != "")
  }
}
