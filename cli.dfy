/** The command-line front end: the choice between the `list`, `delete` and
    create commands, and the rewrite of an unquoted `artist - album [options]`
    command line into the two positional arguments the parser expects. */
module Cli {
  import opened Wrappers

  /** `" ".join(tokens)`. */
  function Join(tokens: seq<string>): string {
    if |tokens| == 0 then ""
    else if |tokens| == 1 then tokens[0]
    else tokens[0] + " " + Join(tokens[1..])
  }

  /** `token.startswith("-")`. */
  predicate IsOption(token: string) {
    |token| > 0 && token[0] == '-'
  }

  /** `token == "-"`, written on the characters of the token. */
  predicate IsDash(token: string) {
    |token| == 1 && token[0] == '-'
  }

  lemma IsDashMeansDash(token: string)
    ensures IsDash(token) <==> token == "-"
  {
    if IsDash(token) {
      assert token == "-";
    }
  }

  /** `args.index("-")` when `"-" in args`, and None when not. */
  function FirstDash(args: seq<string>): (d: Option<nat>)
    ensures d.None? <==> forall j :: 0 <= j < |args| ==> !IsDash(args[j])
    ensures d.Some? ==> d.value < |args| && IsDash(args[d.value])
    ensures d.Some? ==> forall j :: 0 <= j < d.value ==> !IsDash(args[j])
  {
    if |args| == 0 then None
    else if IsDash(args[0]) then Some(0)
    else
      match FirstDash(args[1..])
      case None => None
      case Some(k) => Some(k + 1)
  }

  /** Where the options begin in `rest`: the first option-looking token, or
      the end. */
  function FirstOption(rest: seq<string>): (m: nat)
    ensures m <= |rest|
    ensures forall j :: 0 <= j < m ==> !IsOption(rest[j])
    ensures m < |rest| ==> IsOption(rest[m])
  {
    if |rest| == 0 || IsOption(rest[0]) then 0 else 1 + FirstOption(rest[1..])
  }

  /** The arguments after the program name (`sys.argv[1:]`). */
  function Args(argv: seq<string>): seq<string> {
    if |argv| == 0 then [] else argv[1..]
  }

  /** The command line after the rewrite: unchanged without a lone `-`
      argument; otherwise the tokens before the first one are the artist
      tokens and the rest is split by `Assemble`. */
  function Rewritten(argv: seq<string>): seq<string> {
    match FirstDash(Args(argv))
    case None => argv
    case Some(dash) => Assemble(argv, Args(argv)[..dash], Args(argv)[dash + 1..])
  }

  /** The rest splits at its first option into album tokens and options; the
      command line is rewritten only when both the artist and the album
      tokens are present. */
  function Assemble(argv: seq<string>, artist: seq<string>, rest: seq<string>): seq<string> {
    var m := FirstOption(rest);
    if |argv| > 0 && |artist| > 0 && m > 0 then [argv[0], Join(artist), Join(rest[..m])] + rest[m..] else argv
  }

  /** The loop over the tokens after the dash: album tokens up to the first
      option-looking token, which starts the options. */
  method SplitAlbum(rest: seq<string>) returns (album: seq<string>, options: seq<string>)
    ensures album == rest[..FirstOption(rest)] && options == rest[FirstOption(rest)..]
  {
    album := [];
    options := [];
    var i := 0;
    while i < |rest|
      invariant 0 <= i <= |rest|
      invariant album == rest[..i] && options == []
      invariant forall j :: 0 <= j < i ==> !IsOption(rest[j])
    {
      if IsOption(rest[i]) {
        options := rest[i..];
        FirstOptionUnique(rest, i);
        return;
      }
      album := album + [rest[i]];
      i := i + 1;
    }
    FirstOptionUnique(rest, i);
  }

  /** The rewrite in `main`. */
  method RewriteArgv(argv: seq<string>) returns (result: seq<string>)
    ensures result == Rewritten(argv)
  {
    result := argv;
    var args := Args(argv);
    var dash := FirstDash(args);
    if dash.Some? {
      var artist := args[..dash.value];
      var rest := args[dash.value + 1..];
      var album, options := SplitAlbum(rest);
      if |argv| > 0 && |artist| > 0 && |album| > 0 {
        result := [argv[0], Join(artist), Join(album)] + options;
      }
      AssembleSplit(argv, artist, rest, album, options);
    }
  }

  /** `Assemble` in terms of the split of the rest at its first option. */
  lemma AssembleSplit(argv: seq<string>, artist: seq<string>, rest: seq<string>, album: seq<string>, options: seq<string>)
    requires album == rest[..FirstOption(rest)] && options == rest[FirstOption(rest)..]
    ensures Assemble(argv, artist, rest) ==
              if |argv| > 0 && |artist| > 0 && |album| > 0 then [argv[0], Join(artist), Join(album)] + options else argv
  {
  }

  /** Any split of the arguments into artist tokens none of which is a lone
      dash, a dash, album tokens none of which looks like an option, and
      options that begin with an option-looking token (or are empty) fixes the
      rewrite: the two joined names followed by the options, when both names
      have tokens, and the command line unchanged otherwise. */
  lemma RewriteCharacterised(argv: seq<string>, artist: seq<string>, album: seq<string>, options: seq<string>)
    requires |argv| > 0 && argv[1..] == artist + ["-"] + album + options
    requires forall j :: 0 <= j < |artist| ==> !IsDash(artist[j])
    requires forall j :: 0 <= j < |album| ==> !IsOption(album[j])
    requires |options| == 0 || IsOption(options[0])
    ensures Rewritten(argv) ==
              if |artist| > 0 && |album| > 0 then [argv[0], Join(artist), Join(album)] + options else argv
  {
    DashSplit(argv, artist, album, options);
    OptionSplit(argv, artist, album, options);
  }

  /** The artist tokens and the rest around the first dash. */
  lemma DashSplit(argv: seq<string>, artist: seq<string>, album: seq<string>, options: seq<string>)
    requires |argv| > 0 && argv[1..] == artist + ["-"] + album + options
    requires forall j :: 0 <= j < |artist| ==> !IsDash(artist[j])
    ensures Rewritten(argv) == Assemble(argv, artist, album + options)
  {
    var rest := album + options;
    assert artist + ["-"] + album + options == artist + ["-"] + rest;
    var args := Args(argv);
    var d := |artist|;
    assert args[..d] == artist && args[d + 1..] == rest;
    assert IsDash(args[d]);
    FirstDashUnique(args, d);
  }

  /** The album tokens and the options around the first option. */
  lemma OptionSplit(argv: seq<string>, artist: seq<string>, album: seq<string>, options: seq<string>)
    requires |argv| > 0
    requires forall j :: 0 <= j < |album| ==> !IsOption(album[j])
    requires |options| == 0 || IsOption(options[0])
    ensures Assemble(argv, artist, album + options) ==
              if |artist| > 0 && |album| > 0 then [argv[0], Join(artist), Join(album)] + options else argv
  {
    var rest := album + options;
    assert rest[..|album|] == album && rest[|album|..] == options;
    FirstOptionUnique(rest, |album|);
    AssembleSplit(argv, artist, rest, album, options);
  }

  /** The first dash is the only dash with none before it. */
  lemma FirstDashUnique(args: seq<string>, k: nat)
    requires k < |args| && IsDash(args[k])
    requires forall j :: 0 <= j < k ==> !IsDash(args[j])
    ensures FirstDash(args) == Some(k)
  {
  }

  /** The options begin at the only position with no option before it and an
      option (or the end) at it. */
  lemma FirstOptionUnique(rest: seq<string>, m: nat)
    requires m <= |rest|
    requires forall j :: 0 <= j < m ==> !IsOption(rest[j])
    requires m < |rest| ==> IsOption(rest[m])
    ensures FirstOption(rest) == m
  {
  }

  /** Without a lone `-` argument nothing changes. */
  lemma NoDashUnchanged(argv: seq<string>)
    requires |argv| == 0 || "-" !in argv[1..]
    ensures Rewritten(argv) == argv
  {
    forall j | 0 <= j < |Args(argv)|
      ensures !IsDash(Args(argv)[j])
    {
      IsDashMeansDash(Args(argv)[j]);
    }
  }

  lemma JoinTwo(a: string, b: string)
    ensures Join([a, b]) == a + " " + b
  {
    assert [a, b][1..] == [b];
  }

  /** `coverpalette Pink Floyd - The Wall --hue` becomes the two names
      followed by the option. */
  lemma RewriteJoinsNames()
    ensures Rewritten(["coverpalette", "Pink", "Floyd", "-", "The", "Wall", "--hue"])
            == ["coverpalette", "Pink Floyd", "The Wall", "--hue"]
  {
    var a := ["coverpalette", "Pink", "Floyd", "-", "The", "Wall", "--hue"];
    assert a[1..] == ["Pink", "Floyd"] + ["-"] + ["The", "Wall"] + ["--hue"];
    RewriteCharacterised(a, ["Pink", "Floyd"], ["The", "Wall"], ["--hue"]);
    JoinTwo("Pink", "Floyd");
    JoinTwo("The", "Wall");
    assert "Pink" + " " + "Floyd" == "Pink Floyd";
    assert "The" + " " + "Wall" == "The Wall";
  }

  /** A dash with no album tokens before the options is left alone. */
  lemma RewriteNeedsAlbum()
    ensures Rewritten(["coverpalette", "Low", "-", "--bold"]) == ["coverpalette", "Low", "-", "--bold"]
  {
    var c := ["coverpalette", "Low", "-", "--bold"];
    assert c[1..] == ["Low"] + ["-"] + [] + ["--bold"];
    RewriteCharacterised(c, ["Low"], [], ["--bold"]);
  }

  /** The command `main` runs, with the arguments its parser sees. */
  datatype Command =
    | ListCommand(args: seq<string>)
    | DeleteCommand(args: seq<string>)
    | CreateCommand(argv: seq<string>)

  /** `main`: `list` and `delete` as the first argument are recognised (and
      return) before the command line is rewritten for the create command. */
  method Dispatch(argv: seq<string>) returns (cmd: Command)
    ensures |argv| > 1 && argv[1] == "list" ==> cmd == ListCommand(argv[2..])
    ensures |argv| > 1 && argv[1] == "delete" ==> cmd == DeleteCommand(argv[2..])
    ensures !(|argv| > 1 && (argv[1] == "list" || argv[1] == "delete")) ==> cmd == CreateCommand(Rewritten(argv))
  {
    if |argv| > 1 && argv[1] == "list" {
      return ListCommand(argv[2..]);
    }
    if |argv| > 1 && argv[1] == "delete" {
      return DeleteCommand(argv[2..]);
    }
    var rewritten := RewriteArgv(argv);
    return CreateCommand(rewritten);
  }
}
