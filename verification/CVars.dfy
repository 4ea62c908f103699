/** Parsing the console's variable listing. */
module CVars {
  import opened Text

  datatype CVar = CVar(name: string, cmd: bool, value: string, flags: seq<string>, description: string)

  function WithoutQuotes(s: string): string {
    if s == [] then [] else (if s[0] == '"' then [] else [s[0]]) + WithoutQuotes(s[1..])
  }

  /** The non-empty pieces, trimmed. */
  function NonEmpty(pieces: seq<string>): seq<string> {
    if pieces == [] then []
    else (if Trim(pieces[0]) == "" then [] else [Trim(pieces[0])]) + NonEmpty(pieces[1..])
  }

  function ParseFlags(piece: string): seq<string> {
    NonEmpty(SplitOn(WithoutQuotes(piece), ','))
  }

  function FromColumns(columns: seq<string>): CVar
    requires |columns| == 4
  {
    var value := Trim(columns[1]);
    CVar(Trim(columns[0]),
         value == "cmd",
         if value == "cmd" then "" else value,
         ParseFlags(Trim(columns[2])),
         Trim(columns[3]))
  }

  /** One line: nothing unless it has exactly four columns. */
  function ParseLine(line: string): seq<CVar> {
    var columns := SplitOn(line, ':');
    if |columns| == 4 then [FromColumns(columns)] else []
  }

  function ParseLines(lines: seq<string>): seq<CVar> {
    if lines == [] then [] else ParseLine(lines[0]) + ParseLines(lines[1..])
  }

  method ParseFlagColumn(piece: string) returns (flags: seq<string>)
    ensures flags == ParseFlags(piece)
  {
    flags := [];
    var keys := SplitOn(WithoutQuotes(piece), ',');
    assert keys[..0] == [];
    for i := 0 to |keys|
      invariant flags == NonEmpty(keys[..i])
    {
      NonEmptySnoc(keys[..i], keys[i]);
      assert keys[..i + 1] == keys[..i] + [keys[i]];
      var tag := Trim(keys[i]);
      if tag == "" {
        continue;
      }
      flags := flags + [tag];
    }
    assert keys[..|keys|] == keys;
  }

  lemma {:induction false} NonEmptySnoc(pieces: seq<string>, last: string)
    ensures NonEmpty(pieces + [last]) == NonEmpty(pieces) + if Trim(last) == "" then [] else [Trim(last)]
  {
    if pieces == [] {
      assert pieces + [last] == [last] && [last][1..] == [];
    } else {
      NonEmptySnoc(pieces[1..], last);
      assert (pieces + [last])[0] == pieces[0] && (pieces + [last])[1..] == pieces[1..] + [last];
    }
  }

  method ParseColumns(columns: seq<string>) returns (cvar: CVar)
    requires |columns| == 4
    ensures cvar == FromColumns(columns)
  {
    cvar := CVar("", false, "", [], "");
    for idx := 0 to 4
      invariant idx > 0 ==> cvar.name == FromColumns(columns).name
      invariant if idx > 1 then cvar.cmd == FromColumns(columns).cmd && cvar.value == FromColumns(columns).value
                else !cvar.cmd && cvar.value == ""
      invariant idx > 2 ==> cvar.flags == FromColumns(columns).flags
      invariant idx > 3 ==> cvar.description == FromColumns(columns).description
    {
      var piece := Trim(columns[idx]);
      if idx == 0 {
        cvar := cvar.(name := piece);
      } else if idx == 1 {
        if piece == "cmd" {
          cvar := cvar.(cmd := true);
        } else {
          cvar := cvar.(value := piece);
        }
      } else if idx == 2 {
        var flags := ParseFlagColumn(piece);
        cvar := cvar.(flags := flags);
      } else {
        cvar := cvar.(description := piece);
      }
    }
  }

  method ParseCVars(text: string) returns (cvars: seq<CVar>)
    ensures cvars == ParseLines(Lines(text))
  {
    cvars := [];
    var lines := Lines(text);
    assert lines[..0] == [];
    for i := 0 to |lines|
      invariant cvars == ParseLines(lines[..i])
    {
      ParseSnoc(lines, i);
      var columns := SplitOn(lines[i], ':');
      if |columns| != 4 {
        continue;
      }
      var cvar := ParseColumns(columns);
      cvars := cvars + [cvar];
    }
    assert lines[..|lines|] == lines;
  }

  lemma ParseSnoc(lines: seq<string>, i: nat)
    requires i < |lines|
    ensures ParseLines(lines[..i + 1]) == ParseLines(lines[..i]) + ParseLine(lines[i])
  {
    ParseConcat(lines[..i], [lines[i]]);
    assert lines[..i + 1] == lines[..i] + [lines[i]];
    assert [lines[i]][1..] == [];
  }

  // ---------------------------------------------------------------- the console's side

  predicate Plain(s: string) {
    Bare(s) && ':' !in s && '\n' !in s
  }

  predicate PlainFlag(f: string) {
    Plain(f) && f != "" && '"' !in f && ',' !in f
  }

  /** The variables a listing can show without ambiguity. */
  predicate Listable(v: CVar) {
    && Plain(v.name) && Plain(v.value) && Plain(v.description)
    && (forall i :: 0 <= i < |v.flags| ==> PlainFlag(v.flags[i]))
    && v.value != "cmd" && (v.cmd ==> v.value == "")
  }

  /** Each flag is shown quoted behind a comma. */
  function FlagText(flags: seq<string>): string {
    if flags == [] then "" else ", \"" + flags[0] + "\"" + FlagText(flags[1..])
  }

  function LineText(v: CVar): string {
    var shown := if v.cmd then "cmd" else v.value;
    v.name + " : " + (shown + " : " + (FlagText(v.flags) + " : " + (v.description + "\n")))
  }

  function Listing(vs: seq<CVar>): seq<string> {
    if vs == [] then [] else [LineText(vs[0])] + Listing(vs[1..])
  }

  // ---------------------------------------------------------------- round trip

  lemma {:induction false} QuotesConcat(a: string, b: string)
    ensures WithoutQuotes(a + b) == WithoutQuotes(a) + WithoutQuotes(b)
  {
    if a == [] {
      assert a + b == b;
    } else {
      assert (a + b)[1..] == a[1..] + b;
      QuotesConcat(a[1..], b);
    }
  }

  lemma {:induction false} NoQuotes(s: string)
    requires '"' !in s
    ensures WithoutQuotes(s) == s
  {
    if s == [] {
    } else {
      NoQuotes(s[1..]);
    }
  }

  /** Flags without their quotes: each behind a comma and a space. */
  function BareFlags(flags: seq<string>): string {
    if flags == [] then "" else ", " + flags[0] + BareFlags(flags[1..])
  }

  lemma {:induction false} FlagsUnquoted(flags: seq<string>)
    requires forall i :: 0 <= i < |flags| ==> PlainFlag(flags[i])
    ensures WithoutQuotes(FlagText(flags)) == BareFlags(flags)
  {
    if flags == [] {
    } else {
      FlagsUnquoted(flags[1..]);
      assert PlainFlag(flags[0]);
      OneUnquoted(flags[0], FlagText(flags[1..]));
    }
  }

  lemma OneUnquoted(f: string, rest: string)
    requires '"' !in f
    ensures WithoutQuotes(", \"" + f + "\"" + rest) == ", " + f + WithoutQuotes(rest)
  {
    QuotesConcat(", \"" + f + "\"", rest);
    QuotesConcat(", \"" + f, "\"");
    QuotesConcat(", \"", f);
    NoQuotes(f);
    QuoteMarks();
  }

  lemma QuoteMarks()
    ensures WithoutQuotes("\"") == "" && WithoutQuotes(", \"") == ", "
  {
    assert "\""[1..] == "" && ", \""[1..] == " \"" && " \""[1..] == "\"";
    assert WithoutQuotes(" \"") == " ";
  }

  lemma NonEmptyCons(first: string, rest: seq<string>)
    ensures NonEmpty([first] + rest) == NonEmpty([first]) + NonEmpty(rest)
  {
    assert ([first] + rest)[1..] == rest && [first][1..] == [];
  }

  lemma OneFlag(f: string)
    requires PlainFlag(f)
    ensures NonEmpty([" " + f]) == [f]
  {
    TrimPadded(" ", f, "");
    assert " " + f + "" == " " + f;
    assert [" " + f][1..] == [];
  }

  lemma {:induction false} FlagsSplit(first: string, flags: seq<string>)
    requires ',' !in first && forall i :: 0 <= i < |flags| ==> PlainFlag(flags[i])
    ensures NonEmpty(SplitOn(first + BareFlags(flags), ',')) == NonEmpty([first]) + flags
    decreases |flags|
  {
    if flags == [] {
      assert first + BareFlags(flags) == first;
      SplitNone(first, ',');
      assert NonEmpty([first]) + flags == NonEmpty([first]);
    } else {
      var f, rest := flags[0], BareFlags(flags[1..]);
      assert PlainFlag(f);
      assert first + BareFlags(flags) == first + [','] + (" " + f + rest);
      SplitCons(first, ',', " " + f + rest);
      NonEmptyCons(first, SplitOn(" " + f + rest, ','));
      FlagsSplit(" " + f, flags[1..]);
      OneFlag(f);
      assert flags == [f] + flags[1..];
    }
  }

  /** The flag column reads back as the flags. */
  lemma FlagsRoundTrip(flags: seq<string>)
    requires forall i :: 0 <= i < |flags| ==> PlainFlag(flags[i])
    ensures ParseFlags(FlagText(flags)) == flags
  {
    FlagsUnquoted(flags);
    FlagsSplit("", flags);
    assert "" + BareFlags(flags) == BareFlags(flags);
    assert NonEmpty([""]) == [];
  }

  /** A comma and a quote at the ends are not white space. */
  lemma {:induction false} FlagTextEnds(flags: seq<string>)
    ensures flags != [] ==> |FlagText(flags)| > 0 && FlagText(flags)[0] == ','
    ensures flags != [] ==> FlagText(flags)[|FlagText(flags)| - 1] == '"'
    ensures Bare(FlagText(flags))
  {
    if flags == [] {
    } else {
      FlagTextEnds(flags[1..]);
    }
  }

  lemma {:induction false} FlagTextPlain(flags: seq<string>)
    requires forall i :: 0 <= i < |flags| ==> PlainFlag(flags[i])
    ensures Plain(FlagText(flags))
  {
    if flags == [] {
    } else {
      FlagTextPlain(flags[1..]);
      assert PlainFlag(flags[0]);
      var head := ", \"" + flags[0] + "\"";
      assert ':' !in head && '\n' !in head;
      assert head[0] == ',' && head[|head| - 1] == '"';
      FlagTextEnds(flags);
    }
  }

  lemma ColumnStep(a: string, rest: string)
    requires ':' !in a
    ensures SplitOn(a + " : " + rest, ':') == [a + " "] + SplitOn(" " + rest, ':')
  {
    assert a + " : " + rest == (a + " ") + [':'] + (" " + rest);
    SplitCons(a + " ", ':', " " + rest);
  }

  lemma PaddedStep(a: string, rest: string)
    requires ':' !in a
    ensures SplitOn(" " + (a + " : " + rest), ':') == [" " + a + " "] + SplitOn(" " + rest, ':')
  {
    assert " " + (a + " : " + rest) == (" " + a) + " : " + rest;
    ColumnStep(" " + a, rest);
  }

  lemma LastColumn(d: string)
    requires ':' !in d
    ensures SplitOn(" " + (d + "\n"), ':') == [" " + d + "\n"]
  {
    assert " " + (d + "\n") == " " + d + "\n";
    SplitNone(" " + d + "\n", ':');
  }

  /** A column in front of others. */
  lemma FrontColumn(c: string, rest: string, all: string, columns: seq<string>)
    requires ':' !in c && all == c + " : " + rest && SplitOn(" " + rest, ':') == columns
    ensures SplitOn(" " + all, ':') == [" " + c + " "] + columns
    ensures SplitOn(all, ':') == [c + " "] + columns
  {
    PaddedStep(c, rest);
    ColumnStep(c, rest);
  }

  lemma ThreeColumns(b: string, c: string, last: string, r1: string, r2: string, r3: string)
    requires ':' !in b && ':' !in c && r1 == b + " : " + r2 && r2 == c + " : " + r3
    requires SplitOn(" " + r3, ':') == [last]
    ensures SplitOn(" " + r1, ':') == [" " + b + " ", " " + c + " ", last]
  {
    FrontColumn(c, r3, r2, [last]);
    FrontColumn(b, r2, r1, [" " + c + " "] + [last]);
  }

  lemma FourColumns(a: string, b: string, c: string, d: string, all: string, r1: string, r2: string, r3: string)
    requires ':' !in a && ':' !in b && ':' !in c && ':' !in d
    requires all == a + " : " + r1 && r1 == b + " : " + r2 && r2 == c + " : " + r3 && r3 == d + "\n"
    ensures SplitOn(all, ':') == [a + " ", " " + b + " ", " " + c + " ", " " + d + "\n"]
  {
    LastColumn(d);
    ThreeColumns(b, c, " " + d + "\n", r1, r2, r3);
    FrontColumn(a, r1, all, [" " + b + " ", " " + c + " ", " " + d + "\n"]);
  }

  lemma LineColumns(v: CVar)
    requires Listable(v)
    ensures var shown := if v.cmd then "cmd" else v.value;
            SplitOn(LineText(v), ':')
            == [v.name + " ", " " + shown + " ", " " + FlagText(v.flags) + " ", " " + v.description + "\n"]
  {
    var shown := if v.cmd then "cmd" else v.value;
    FlagTextPlain(v.flags);
    var r3 := v.description + "\n";
    var r2 := FlagText(v.flags) + " : " + r3;
    FourColumns(v.name, shown, FlagText(v.flags), v.description, LineText(v), shown + " : " + r2, r2, r3);
  }

  lemma ColumnsTrimmed(name: string, shown: string, flags: string, description: string)
    requires Bare(name) && Bare(shown) && Bare(flags) && Bare(description)
    ensures Trim(name + " ") == name && Trim(" " + shown + " ") == shown
    ensures Trim(" " + flags + " ") == flags && Trim(" " + description + "\n") == description
  {
    TrimPadded("", name, " ");
    assert "" + name + " " == name + " ";
    TrimPadded(" ", shown, " ");
    TrimPadded(" ", flags, " ");
    TrimPadded(" ", description, "\n");
  }

  /** A listed line reads back as its variable. */
  lemma LineRoundTrip(v: CVar)
    requires Listable(v)
    ensures ParseLine(LineText(v)) == [v]
  {
    LineColumns(v);
    FlagTextPlain(v.flags);
    FlagsRoundTrip(v.flags);
    CmdIsBare();
    ColumnsTrimmed(v.name, if v.cmd then "cmd" else v.value, FlagText(v.flags), v.description);
  }

  lemma CmdIsBare()
    ensures Bare("cmd")
  {
  }

  lemma {:induction false} ParseConcat(a: seq<string>, b: seq<string>)
    ensures ParseLines(a + b) == ParseLines(a) + ParseLines(b)
  {
    if a == [] {
      assert a + b == b;
    } else {
      assert (a + b)[1..] == a[1..] + b;
      ParseConcat(a[1..], b);
    }
  }

  lemma {:induction false} ListingParses(vs: seq<CVar>)
    requires forall i :: 0 <= i < |vs| ==> Listable(vs[i])
    ensures ParseLines(Listing(vs)) == vs
    ensures forall i :: 0 <= i < |Listing(vs)| ==> IsLine(Listing(vs)[i])
  {
    if vs == [] {
    } else {
      ListingParses(vs[1..]);
      LineRoundTrip(vs[0]);
      LineIsLine(vs[0]);
      assert vs == [vs[0]] + vs[1..];
    }
  }

  lemma LineIsLine(v: CVar)
    requires Listable(v)
    ensures IsLine(LineText(v))
  {
    FlagTextPlain(v.flags);
    var shown := if v.cmd then "cmd" else v.value;
    var bare := v.name + " : " + (shown + " : " + (FlagText(v.flags) + " : " + v.description));
    assert '\n' !in bare;
    assert LineText(v) == bare + "\n" && LineText(v)[..|bare|] == bare;
  }

  /** Parsing a listing gives back exactly the variables it lists. */
  lemma ListingRoundTrip(vs: seq<CVar>)
    requires forall i :: 0 <= i < |vs| ==> Listable(vs[i])
    ensures ParseLines(Lines(Concat(Listing(vs)))) == vs
  {
    ListingParses(vs);
    LinesOfConcat(Listing(vs), "");
    assert Concat(Listing(vs)) + "" == Concat(Listing(vs));
    assert Listing(vs) + Lines("") == Listing(vs);
  }

  /** A line without exactly four columns contributes nothing, wherever it is inserted. */
  lemma JunkLineIgnored(before: seq<string>, junk: string, after: string)
    requires forall i :: 0 <= i < |before| ==> IsLine(before[i])
    requires IsLine(junk) && |SplitOn(junk, ':')| != 4
    ensures ParseLines(Lines(Concat(before) + junk + after)) == ParseLines(Lines(Concat(before) + after))
  {
    assert Concat(before) + junk + after == Concat(before) + (junk + after);
    LinesOfConcat(before, junk + after);
    LinesOfConcat(before, after);
    LinesLine(junk, after);
    JunkAmongLines(before, junk, Lines(after));
  }

  lemma JunkAmongLines(before: seq<string>, junk: string, after: seq<string>)
    requires ParseLine(junk) == []
    ensures ParseLines(before + ([junk] + after)) == ParseLines(before + after)
  {
    ParseConcat(before, [junk] + after);
    ParseConcat(before, after);
    assert ([junk] + after)[0] == junk && ([junk] + after)[1..] == after;
    assert [] + ParseLines(after) == ParseLines(after);
  }
}
