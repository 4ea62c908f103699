/** Reading the `g15_dumpplayer` console output into a dump. */
module G15 {
  import opened Domain
  import opened Text

  /** Lines of this many bytes or more stop the scanner. */
  const MAX_TOKEN := 65536

  datatype Field =
    | NameField | PingField | ScoreField | DeathsField | ConnectedField | TeamField
    | AliveField | HealthField | AccountField | ValidField | UserField

  function FieldName(f: Field): string {
    match f
    case NameField => "m_szName"
    case PingField => "m_iPing"
    case ScoreField => "m_iScore"
    case DeathsField => "m_iDeaths"
    case ConnectedField => "m_bConnected"
    case TeamField => "m_iTeam"
    case AliveField => "m_bAlive"
    case HealthField => "m_iHealth"
    case AccountField => "m_iAccountID"
    case ValidField => "m_bValid"
    case UserField => "m_iUserID"
  }

  const FIELDS := [NameField, PingField, ScoreField, DeathsField, ConnectedField, TeamField,
                   AliveField, HealthField, AccountField, ValidField, UserField]

  function FieldIn(fs: seq<Field>, word: string): (r: Option<Field>)
    ensures r.Some? ==> FieldName(r.value) == word
  {
    if fs == [] then None
    else if FieldName(fs[0]) == word then Some(fs[0])
    else FieldIn(fs[1..], word)
  }

  // ---------------------------------------------------------------- one line

  predicate IsGap(c: char) {
    c in {' ', '\t', '\n', '\r', '\U{0C}'}
  }

  datatype Hit = Hit(field: Field, index: string, value: string)

  /** The part after the index: a gap, a type word, a gap, and a parenthesised value up to the end. */
  function MatchValue(s: string): Option<string> {
    if s == [] || !IsGap(s[0]) then None
    else
      var rest := s[1..];
      var w := if "integer" <= rest then 7 else if "bool" <= rest then 4 else if "string" <= rest then 6 else 0;
      if w == 0 then None
      else
        var tail := rest[w..];
        if |tail| >= 3 && IsGap(tail[0]) && tail[1] == '(' && tail[|tail| - 1] == ')'
           && '\n' !in tail[2..|tail| - 1]
        then Some(tail[2..|tail| - 1])
        else None
  }

  /** The line pattern: a field name, a number in brackets, a type word and a value. */
  function MatchLine(line: string): Option<Hit> {
    var b := IndexOf(line, '[');
    if b == |line| then None
    else
      var f := FieldIn(FIELDS, line[..b]);
      var rest := line[b + 1..];
      var e := IndexOf(rest, ']');
      if f.None? || e == 0 || e == |rest| || !AllDigits(rest[..e]) then None
      else
        var v := MatchValue(rest[e + 1..]);
        if v.None? then None else Some(Hit(f.value, rest[..e], v.value))
  }

  function TrimReturns(s: string): string
    decreases |s|
  {
    if s != [] && s[0] == '\r' then TrimReturns(s[1..])
    else if s != [] && s[|s| - 1] == '\r' then TrimReturns(s[..|s| - 1])
    else s
  }

  function ParseIntOr(s: string, def: int): int {
    var r := ParseInt32(s);
    if r.None? then def else r.value
  }

  function ParseBool(s: string): bool {
    s in {"1", "t", "T", "TRUE", "true", "True"}
  }

  /** A line that assigns a value to one cell of the dump. */
  datatype Assignment = Assignment(field: Field, index: nat, value: string)

  function Effect(token: string): Option<Assignment> {
    var hit := MatchLine(TrimReturns(token));
    if hit.None? then None
    else
      var index := ParseIntOr(hit.value.index, -1);
      if index < 0 then None else Some(Assignment(hit.value.field, index, hit.value.value))
  }

  // ---------------------------------------------------------------- cells

  datatype Cell = Word(s: string) | Whole(n: int) | Truth(b: bool) | Id(id: SteamID)

  /** How each field reads its value; `newID` builds an id from an account number. */
  function ParseCell(newID: int -> SteamID, f: Field, value: string): Cell {
    match f
    case NameField => Word(value)
    case PingField => Whole(ParseIntOr(value, 0))
    case ScoreField => Whole(ParseIntOr(value, 0))
    case DeathsField => Whole(ParseIntOr(value, 0))
    case ConnectedField => Truth(ParseBool(value))
    case TeamField => Whole(ParseIntOr(value, 0))
    case AliveField => Truth(ParseBool(value))
    case HealthField => Whole(ParseIntOr(value, 0))
    case AccountField => Id(newID(ParseIntOr(value, 0)))
    case ValidField => Truth(ParseBool(value))
    case UserField => Whole(ParseIntOr(value, -1))
  }

  function Read(s: Slot, f: Field): Cell {
    match f
    case NameField => Word(s.name)
    case PingField => Whole(s.ping)
    case ScoreField => Whole(s.score)
    case DeathsField => Whole(s.deaths)
    case ConnectedField => Truth(s.connected)
    case TeamField => Whole(s.team)
    case AliveField => Truth(s.alive)
    case HealthField => Whole(s.health)
    case AccountField => Id(s.steamID)
    case ValidField => Truth(s.valid)
    case UserField => Whole(s.userID)
  }

  /** The switch of the parser: each field goes to its own array. */
  function Store(newID: int -> SteamID, s: Slot, f: Field, value: string): Slot {
    match f
    case NameField => s.(name := value)
    case PingField => s.(ping := ParseIntOr(value, 0))
    case ScoreField => s.(score := ParseIntOr(value, 0))
    case DeathsField => s.(deaths := ParseIntOr(value, 0))
    case ConnectedField => s.(connected := ParseBool(value))
    case TeamField => s.(team := ParseIntOr(value, 0))
    case AliveField => s.(alive := ParseBool(value))
    case HealthField => s.(health := ParseIntOr(value, 0))
    case AccountField => s.(steamID := newID(ParseIntOr(value, 0)))
    case ValidField => s.(valid := ParseBool(value))
    case UserField => s.(userID := ParseIntOr(value, -1))
  }

  lemma StoreReads(newID: int -> SteamID, s: Slot, f: Field, value: string, g: Field)
    ensures Read(Store(newID, s, f, value), g) == if f == g then ParseCell(newID, f, value) else Read(s, g)
  {
  }

  // ---------------------------------------------------------------- a whole response

  /** A line without its break. */
  function Content(line: string): string {
    if line != [] && line[|line| - 1] == '\n' then line[..|line| - 1] else line
  }

  function Tokens(lines: seq<string>): seq<string> {
    if lines == [] || |Content(lines[0])| >= MAX_TOKEN then []
    else
      var c := Content(lines[0]);
      var token := if c != [] && c[|c| - 1] == '\r' then c[..|c| - 1] else c;
      [token] + Tokens(lines[1..])
  }

  /** Writing past the last slot of a fixed array stops the program. */
  datatype Outcome = Parsed(slots: seq<Slot>) | IndexPanic

  function Assign(newID: int -> SteamID, o: Outcome, e: Option<Assignment>): (r: Outcome)
    requires o.Parsed? ==> IsDump(o.slots)
    ensures r.Parsed? ==> IsDump(r.slots)
  {
    if o.IndexPanic? || e.None? then o
    else if e.value.index >= MAX_PLAYER_COUNT then IndexPanic
    else
      var i := e.value.index;
      Parsed(o.slots[i := Store(newID, o.slots[i], e.value.field, e.value.value)])
  }

  function Effects(tokens: seq<string>): (r: seq<Option<Assignment>>)
    ensures |r| == |tokens|
  {
    seq(|tokens|, i requires 0 <= i < |tokens| => Effect(tokens[i]))
  }

  /** The dump after a sequence of line effects, from the empty dump. */
  function Fold(newID: int -> SteamID, es: seq<Option<Assignment>>): (r: Outcome)
    ensures r.Parsed? ==> IsDump(r.slots)
  {
    if es == [] then Parsed(EmptyDump())
    else Assign(newID, Fold(newID, es[..|es| - 1]), es[|es| - 1])
  }

  /** What a response is read as. */
  function Parse(newID: int -> SteamID, text: string): Outcome {
    Fold(newID, Effects(Tokens(Lines(text))))
  }

  lemma {:induction false} PanicSticks(newID: int -> SteamID, es: seq<Option<Assignment>>, n: nat)
    requires n <= |es| && Fold(newID, es[..n]).IndexPanic?
    ensures Fold(newID, es).IndexPanic?
  {
    if n < |es| {
      var front := es[..|es| - 1];
      assert front[..n] == es[..n];
      PanicSticks(newID, front, n);
    } else {
      assert es[..n] == es;
    }
  }

  method ReadLine(token: string) returns (e: Option<Assignment>)
    ensures e == Effect(token)
  {
    var hit := MatchLine(TrimReturns(token));
    if hit.None? {
      return None;
    }
    var index := ParseIntOr(hit.value.index, -1);
    if index < 0 {
      return None;
    }
    return Some(Assignment(hit.value.field, index, hit.value.value));
  }

  lemma FoldSnoc(newID: int -> SteamID, es: seq<Option<Assignment>>, n: nat)
    requires n < |es|
    ensures Fold(newID, es[..n + 1]) == Assign(newID, Fold(newID, es[..n]), es[n])
  {
    assert es[..n + 1][..n] == es[..n];
  }

  method StoreInPlace(newID: int -> SteamID, data: array<Slot>, e: Option<Assignment>) returns (inRange: bool)
    requires data.Length == MAX_PLAYER_COUNT
    modifies data
    ensures Assign(newID, Parsed(old(data[..])), e) == if inRange then Parsed(data[..]) else IndexPanic
  {
    if e.None? {
      return true;
    }
    if e.value.index >= MAX_PLAYER_COUNT {
      return false;
    }
    data[e.value.index] := Store(newID, data[e.value.index], e.value.field, e.value.value);
    return true;
  }

  method ParsePlayerState(newID: int -> SteamID, text: string) returns (r: Outcome)
    ensures r == Parse(newID, text)
  {
    var data := new Slot[MAX_PLAYER_COUNT](_ => ZERO_SLOT);
    assert data[..] == EmptyDump();
    var tokens := Tokens(Lines(text));
    ghost var es := Effects(tokens);
    for n := 0 to |tokens|
      invariant Fold(newID, es[..n]) == Parsed(data[..])
    {
      FoldSnoc(newID, es, n);
      var e := ReadLine(tokens[n]);
      var inRange := StoreInPlace(newID, data, e);
      if !inRange {
        PanicSticks(newID, es, n + 1);
        return IndexPanic;
      }
    }
    assert es[..|es|] == es;
    return Parsed(data[..]);
  }

  // ---------------------------------------------------------------- last line wins

  /** The value of the last line for the cell, or the zero value. */
  function LastValue(newID: int -> SteamID, es: seq<Option<Assignment>>, f: Field, i: nat): Cell {
    if es == [] then Read(ZERO_SLOT, f)
    else
      var last := es[|es| - 1];
      if last.Some? && last.value.field == f && last.value.index == i
      then ParseCell(newID, f, last.value.value)
      else LastValue(newID, es[..|es| - 1], f, i)
  }

  /** The parser panics exactly when some scanned line names a slot from 102 on. */
  lemma {:induction false} PanicIff(newID: int -> SteamID, es: seq<Option<Assignment>>)
    ensures Fold(newID, es).IndexPanic?
       <==> exists n :: 0 <= n < |es| && es[n].Some? && es[n].value.index >= MAX_PLAYER_COUNT
  {
    if es == [] {
    } else {
      var m := |es| - 1;
      PanicIff(newID, es[..m]);
      assert forall n :: 0 <= n < m ==> es[..m][n] == es[n];
    }
  }

  /** Otherwise every cell holds the value of the last line that names it. */
  lemma {:induction false} LastLineWins(newID: int -> SteamID, es: seq<Option<Assignment>>, f: Field, i: nat)
    requires Fold(newID, es).Parsed? && i < MAX_PLAYER_COUNT
    ensures Read(Fold(newID, es).slots[i], f) == LastValue(newID, es, f, i)
  {
    if es == [] {
    } else {
      var m := |es| - 1;
      LastLineWins(newID, es[..m], f, i);
      var e := es[m];
      if e.Some? {
        StoreReads(newID, Fold(newID, es[..m]).slots[e.value.index], e.value.field, e.value.value, f);
      }
    }
  }

  predicate NothingUnprinted(s: Slot) {
    s.loss == 0 && s.state == "" && s.address == "" && s.time == 0
  }

  lemma StoreUnprinted(newID: int -> SteamID, s: Slot, f: Field, value: string)
    requires NothingUnprinted(s)
    ensures NothingUnprinted(Store(newID, s, f, value))
  {
  }

  /** The fields the console does not print stay zero. */
  lemma {:induction false} UnprintedStayZero(newID: int -> SteamID, es: seq<Option<Assignment>>, i: nat)
    requires Fold(newID, es).Parsed? && i < MAX_PLAYER_COUNT
    ensures NothingUnprinted(Fold(newID, es).slots[i])
  {
    if es == [] {
    } else {
      var m := |es| - 1;
      UnprintedStayZero(newID, es[..m], i);
      var e := es[m];
      if e.Some? && e.value.index == i {
        StoreUnprinted(newID, Fold(newID, es[..m]).slots[i], e.value.field, e.value.value);
      }
    }
  }

  // ---------------------------------------------------------------- the console's side

  /** A printed cell: a name, a 32-bit number or a flag. */
  datatype Entry = Entry(field: Field, index: nat, value: Cell)

  predicate IsFlag(f: Field) {
    f.ConnectedField? || f.AliveField? || f.ValidField?
  }

  predicate Printable(e: Entry) {
    && e.index <= MAX_INT32
    && (if e.field.NameField? then e.value.Word? && '\n' !in e.value.s
        else if IsFlag(e.field) then e.value.Truth?
        else e.value.Whole? && MIN_INT32 <= e.value.n <= MAX_INT32)
    && |EntryLine(e)| < MAX_TOKEN
  }

  function ValueText(v: Cell): string {
    match v
    case Word(s) => s
    case Whole(n) => Decimal(n)
    case Truth(b) => if b then "true" else "false"
    case Id(_) => ""
  }

  function TypeWord(f: Field): string {
    if f.NameField? then "string" else if IsFlag(f) then "bool" else "integer"
  }

  function EntryLine(e: Entry): string {
    FieldName(e.field) + "[" + Digits(e.index) + "] " + TypeWord(e.field) + " (" + ValueText(e.value) + ")"
  }

  /** What the dump should hold for a printed cell. */
  function Meaning(newID: int -> SteamID, f: Field, v: Cell): Cell {
    if f.AccountField? && v.Whole? then Id(newID(v.n)) else v
  }

  // ---------------------------------------------------------------- round trip of one line

  lemma FieldNameLetters(f: Field)
    ensures '[' !in FieldName(f) && '\n' !in FieldName(f)
    ensures |FieldName(f)| > 0 && FieldName(f)[0] == 'm'
  {
  }

  lemma FieldNames(f: Field)
    ensures FieldIn(FIELDS, FieldName(f)) == Some(f)
  {
    FieldInFinds(FIELDS, f);
  }

  lemma DifferentNames(f: Field, g: Field)
    requires f != g
    ensures FieldName(f) != FieldName(g)
  {
    var a, b := FieldName(f), FieldName(g);
    if |a| == |b| {
      assert a[2] != b[2] || a[3] != b[3] || a[4] != b[4];
    }
  }

  lemma {:induction false} FieldInFinds(fs: seq<Field>, f: Field)
    requires f in fs
    ensures FieldIn(fs, FieldName(f)) == Some(f)
  {
    if fs[0] == f {
    } else {
      DifferentNames(f, fs[0]);
      FieldInFinds(fs[1..], f);
    }
  }

  predicate IsTypeWord(word: string) {
    word == "integer" || word == "bool" || word == "string"
  }

  /** A gap, a type word, a gap and a value in parentheses, up to the end of the line. */
  predicate ValueForm(s: string, g: char, word: string, h: char, value: string) {
    && s == [g] + (word + ([h] + ("(" + (value + ")"))))
    && IsTypeWord(word) && g in " \t\n\r\U{0C}" && h in " \t\n\r\U{0C}" && '\n' !in value
  }

  lemma MatchOfValueForm(s: string, g: char, word: string, h: char, value: string)
    requires ValueForm(s, g, word, h, value)
    ensures MatchValue(s) == Some(value)
  {
    var tail := [h] + ("(" + (value + ")"));
    assert s[0] == g && s[1..] == word + tail;
    assert (word + tail)[..|word|] == word && (word + tail)[|word|..] == tail;
    assert tail[2..|tail| - 1] == value && tail[0] == h && tail[1] == '(';
    assert (word + tail)[0] == word[0];
  }

  /** Nothing else matches. */
  lemma OnlyValueForm(s: string, value: string)
    requires MatchValue(s) == Some(value)
    ensures exists g, word, h :: ValueForm(s, g, word, h, value)
  {
    var rest := s[1..];
    var w := if "integer" <= rest then 7 else if "bool" <= rest then 4 else 6;
    var word, tail := rest[..w], rest[w..];
    assert tail == [tail[0]] + ("(" + (value + ")"));
    assert s == [s[0]] + (word + tail);
    assert ValueForm(s, s[0], word, tail[0], value);
  }

  lemma MatchPrintedValue(word: string, value: string)
    requires IsTypeWord(word) && '\n' !in value
    ensures MatchValue(" " + word + " (" + value + ")") == Some(value)
  {
    var s := " " + word + " (" + value + ")";
    assert s == [' '] + (word + ([' '] + ("(" + (value + ")"))));
    MatchOfValueForm(s, ' ', word, ' ', value);
  }

  /** A name, a number in brackets, and a value of that form. */
  ghost predicate LineForm(line: string, name: string, index: string, value: string) {
    && index != "" && AllDigits(index)
    && exists tail, g, word, h :: ValueForm(tail, g, word, h, value) && line == name + "[" + index + "]" + tail
  }

  lemma Reassembled(line: string, b: nat, e: nat)
    requires b < |line| && line[b] == '[' && e < |line| - b - 1 && line[b + 1..][e] == ']'
    ensures var rest := line[b + 1..];
            line == line[..b] + "[" + rest[..e] + "]" + rest[e + 1..]
  {
    var rest := line[b + 1..];
    assert rest == rest[..e] + "]" + rest[e + 1..];
    assert line == line[..b] + "[" + rest;
  }

  lemma TailForm(line: string, name: string, index: string, tail: string, value: string)
    requires index != "" && AllDigits(index) && MatchValue(tail) == Some(value)
    requires line == name + "[" + index + "]" + tail
    ensures LineForm(line, name, index, value)
  {
    OnlyValueForm(tail, value);
    var g, word, h :| ValueForm(tail, g, word, h, value);
  }

  /** Nothing else matches. */
  lemma OnlyLineForm(line: string, hit: Hit)
    requires MatchLine(line) == Some(hit)
    ensures LineForm(line, FieldName(hit.field), hit.index, hit.value)
  {
    var b := IndexOf(line, '[');
    var e := IndexOf(line[b + 1..], ']');
    var name := FieldName(hit.field);
    assert name == line[..b];
    FormOfParts(line, b, e, name, hit.index, hit.value);
  }

  lemma FormOfParts(line: string, b: nat, e: nat, name: string, index: string, value: string)
    requires b < |line| && line[b] == '[' && e < |line| - b - 1 && line[b + 1..][e] == ']'
    requires name == line[..b] && index == line[b + 1..][..e] && index != "" && AllDigits(index)
    requires MatchValue(line[b + 1..][e + 1..]) == Some(value)
    ensures LineForm(line, name, index, value)
  {
    Reassembled(line, b, e);
    TailForm(line, name, index, line[b + 1..][e + 1..], value);
  }

  lemma DigitsPlain(s: string)
    requires AllDigits(s)
    ensures ']' !in s && '\n' !in s
  {
  }

  lemma ValueTextPlain(e: Entry)
    requires Printable(e)
    ensures '\n' !in ValueText(e.value)
  {
    if e.value.Whole? {
      var n := e.value.n;
      DigitsPlain(Digits(if n < 0 then -n else n));
    }
  }

  lemma LinePieces(name: string, digits: string, tail: string)
    requires '[' !in name && AllDigits(digits)
    ensures var line := name + "[" + digits + "]" + tail;
            && IndexOf(line, '[') == |name|
            && line[..|name|] == name
            && IndexOf(line[|name| + 1..], ']') == |digits|
            && line[|name| + 1..][..|digits|] == digits
            && line[|name| + 1..][|digits| + 1..] == tail
  {
    var line := name + "[" + digits + "]" + tail;
    var rest := digits + [']'] + tail;
    assert line == name + ['['] + rest;
    IndexOfAfter(name, '[', rest);
    assert line[|name| + 1..] == rest;
    DigitsPlain(digits);
    IndexOfAfter(digits, ']', tail);
  }

  lemma MatchParts(f: Field, name: string, digits: string, tail: string, value: string)
    requires '[' !in name && FieldIn(FIELDS, name) == Some(f)
    requires digits != [] && AllDigits(digits)
    requires MatchValue(tail) == Some(value)
    ensures MatchLine(name + "[" + digits + "]" + tail) == Some(Hit(f, digits, value))
  {
    LinePieces(name, digits, tail);
  }

  /** Any line of the console's form matches, whichever type word it shows and whatever its value. */
  lemma MatchOfForm(f: Field, i: nat, word: string, value: string)
    requires IsTypeWord(word) && '\n' !in value
    ensures MatchLine(FieldName(f) + "[" + Digits(i) + "] " + word + " (" + value + ")")
         == Some(Hit(f, Digits(i), value))
  {
    var tail := " " + word + " (" + value + ")";
    FieldNameLetters(f);
    FieldNames(f);
    MatchPrintedValue(word, value);
    MatchParts(f, FieldName(f), Digits(i), tail, value);
    EntryLineParts(FieldName(f), Digits(i), word, value);
  }

  lemma EntryLineParts(name: string, digits: string, word: string, value: string)
    ensures name + "[" + digits + "] " + word + " (" + value + ")"
         == name + "[" + digits + "]" + (" " + word + " (" + value + ")")
  {
  }

  lemma EntryLineEnds(e: Entry)
    requires Printable(e)
    ensures '\n' !in EntryLine(e)
    ensures |EntryLine(e)| > 0 && EntryLine(e)[0] == 'm' && EntryLine(e)[|EntryLine(e)| - 1] == ')'
  {
    FieldNameLetters(e.field);
    DigitsPlain(Digits(e.index));
    ValueTextPlain(e);
    assert '\n' !in TypeWord(e.field);
    assert '\n' !in "[" && '\n' !in "] " && '\n' !in " (" && '\n' !in ")";
  }

  /** A printed line is read back as exactly its assignment. */
  lemma EffectOfPrinted(e: Entry)
    requires Printable(e)
    ensures Effect(EntryLine(e)) == Some(Assignment(e.field, e.index, ValueText(e.value)))
  {
    EntryLineEnds(e);
    ValueTextPlain(e);
    assert TrimReturns(EntryLine(e)) == EntryLine(e);
    MatchOfForm(e.field, e.index, TypeWord(e.field), ValueText(e.value));
    ParseDecimal(e.index);
  }

  lemma CellOfPrinted(newID: int -> SteamID, e: Entry)
    requires Printable(e)
    ensures ParseCell(newID, e.field, ValueText(e.value)) == Meaning(newID, e.field, e.value)
  {
    if e.value.Whole? {
      ParseDecimal(e.value.n);
    } else if e.value.Truth? && !e.value.b {
      assert "false"[0] == 'f';
    }
  }

  /** A line the scanner hands on as it is. */
  predicate Clean(l: string) {
    0 < |l| < MAX_TOKEN && '\n' !in l && l[|l| - 1] != '\r'
  }

  /** A line break, with or without a carriage return. */
  predicate Break(e: string) {
    e == "\n" || e == "\r\n"
  }

  /** Lines with their breaks; the last line may go without. */
  ghost predicate Breaks(ls: seq<string>, ends: seq<string>) {
    && |ends| == |ls|
    && forall i :: 0 <= i < |ls| ==>
         && Clean(ls[i]) && |ls[i]| + |ends[i]| <= MAX_TOKEN
         && (Break(ends[i]) || (i == |ls| - 1 && ends[i] == ""))
  }

  function Ended(ls: seq<string>, ends: seq<string>): (r: seq<string>)
    requires |ends| == |ls|
    ensures |r| == |ls|
  {
    seq(|ls|, i requires 0 <= i < |ls| => ls[i] + ends[i])
  }

  lemma ContentOfEnded(l: string, end: string)
    requires Clean(l) && |l| + |end| <= MAX_TOKEN && (Break(end) || end == "")
    ensures var c := Content(l + end);
            && |c| < MAX_TOKEN
            && (if c != [] && c[|c| - 1] == '\r' then c[..|c| - 1] else c) == l
  {
    var line := l + end;
    if end == "\n" {
      assert line[..|l|] == l;
    } else if end == "\r\n" {
      assert line[..|l| + 1] == l + "\r";
      assert (l + "\r")[..|l|] == l;
    } else {
      assert line == l;
    }
  }

  /** The scanner hands on each line without its break. */
  lemma {:induction false} TokensOfEnded(ls: seq<string>, ends: seq<string>)
    requires Breaks(ls, ends)
    ensures Tokens(Ended(ls, ends)) == ls
  {
    if ls == [] {
    } else {
      TokensOfEnded(ls[1..], ends[1..]);
      assert Ended(ls, ends)[1..] == Ended(ls[1..], ends[1..]);
      ContentOfEnded(ls[0], ends[0]);
      assert ls == [ls[0]] + ls[1..];
    }
  }

  lemma EndedIsLine(l: string, end: string)
    requires Clean(l) && Break(end)
    ensures IsLine(l + end)
  {
    var line := l + end;
    assert end == "\n" ==> line[..|line| - 1] == l;
    assert end == "\r\n" ==> line[..|line| - 1] == l + "\r";
  }

  lemma LinesOfEnded(ls: seq<string>, ends: seq<string>)
    requires Breaks(ls, ends)
    ensures Lines(Concat(Ended(ls, ends))) == Ended(ls, ends)
  {
    var lines := Ended(ls, ends);
    if ls == [] {
    } else {
      var n := |ls| - 1;
      forall i | 0 <= i < n
        ensures IsLine(lines[..n][i])
      {
        EndedIsLine(ls[i], ends[i]);
      }
      ConcatSnoc(lines[..n], lines[n]);
      assert lines == lines[..n] + [lines[n]];
      LinesOfConcat(lines[..n], lines[n]);
      LinesOfLast(ls[n], ends[n]);
    }
  }

  lemma LinesOfLast(l: string, end: string)
    requires Clean(l) && (Break(end) || end == "")
    ensures Lines(l + end) == [l + end]
  {
    var line := l + end;
    if end == "" {
      assert line == l && IndexOf(line, '\n') == |line|;
    } else {
      EndedIsLine(l, end);
      LinesLine(line, "");
      assert line + "" == line;
    }
  }

  lemma {:induction false} ConcatSnoc(parts: seq<string>, last: string)
    ensures Concat(parts + [last]) == Concat(parts) + last
  {
    if parts == [] {
      assert parts + [last] == [last] && [last][1..] == [];
    } else {
      assert (parts + [last])[0] == parts[0] && (parts + [last])[1..] == parts[1..] + [last];
      ConcatSnoc(parts[1..], last);
    }
  }

  lemma TokensOfText(ls: seq<string>, ends: seq<string>)
    requires Breaks(ls, ends)
    ensures Tokens(Lines(Concat(Ended(ls, ends)))) == ls
  {
    LinesOfEnded(ls, ends);
    TokensOfEnded(ls, ends);
  }

  function EntryLines(es: seq<Entry>): (r: seq<string>)
    ensures |r| == |es|
  {
    seq(|es|, i requires 0 <= i < |es| => EntryLine(es[i]))
  }

  /** What the console sends: the lines of the cells, each with its break; the last may go without. */
  function Printed(es: seq<Entry>, ends: seq<string>): string
    requires |ends| == |es|
  {
    Concat(Ended(EntryLines(es), ends))
  }

  ghost predicate PrintsLines(es: seq<Entry>, ends: seq<string>) {
    && |ends| == |es|
    && forall i :: 0 <= i < |es| ==>
         && Printable(es[i]) && |EntryLine(es[i])| + |ends[i]| <= MAX_TOKEN
         && (Break(ends[i]) || (i == |es| - 1 && ends[i] == ""))
  }

  function Assigned(es: seq<Entry>): (r: seq<Option<Assignment>>)
    ensures |r| == |es|
  {
    seq(|es|, i requires 0 <= i < |es| => Some(Assignment(es[i].field, es[i].index, ValueText(es[i].value))))
  }

  /** The effects of a printed response are its entries, one by one. */
  lemma EffectsOfPrinted(es: seq<Entry>, ends: seq<string>)
    requires PrintsLines(es, ends)
    ensures Effects(Tokens(Lines(Printed(es, ends)))) == Assigned(es)
  {
    var ls := EntryLines(es);
    forall i | 0 <= i < |ls|
      ensures Clean(ls[i])
    {
      EntryLineEnds(es[i]);
    }
    TokensOfText(ls, ends);
    forall i | 0 <= i < |es|
      ensures Effects(ls)[i] == Assigned(es)[i]
    {
      EffectOfPrinted(es[i]);
    }
  }

  // ---------------------------------------------------------------- round trip of a dump

  /** The entries are a print-out of the dump: each is true of it and no cell is missing. */
  ghost predicate PrintsOut(newID: int -> SteamID, es: seq<Entry>, dump: seq<Slot>) {
    && IsDump(dump)
    && (forall i :: 0 <= i < MAX_PLAYER_COUNT ==> NothingUnprinted(dump[i]))
    && (forall n :: 0 <= n < |es| ==>
          Printable(es[n]) && es[n].index < MAX_PLAYER_COUNT
          && Meaning(newID, es[n].field, es[n].value) == Read(dump[es[n].index], es[n].field))
    && (forall i, f :: 0 <= i < MAX_PLAYER_COUNT ==> Covers(es, f, i))
  }

  ghost predicate Covers(es: seq<Entry>, f: Field, i: nat) {
    exists n :: 0 <= n < |es| && es[n].field == f && es[n].index == i
  }

  /** If every assignment to a cell agrees, and there is one, the last one does. */
  lemma {:induction false} LastValueAgreed(
    newID: int -> SteamID, es: seq<Option<Assignment>>, f: Field, i: nat, c: Cell, n: nat)
    requires n < |es| && es[n].Some? && es[n].value.field == f && es[n].value.index == i
    requires forall m :: 0 <= m < |es| && es[m].Some? && es[m].value.field == f && es[m].value.index == i ==>
               ParseCell(newID, f, es[m].value.value) == c
    ensures LastValue(newID, es, f, i) == c
  {
    var k := |es| - 1;
    if es[k].Some? && es[k].value.field == f && es[k].value.index == i {
    } else {
      LastValueAgreed(newID, es[..k], f, i, c, n);
    }
  }

  lemma CellOfPrintOut(newID: int -> SteamID, es: seq<Entry>, dump: seq<Slot>, f: Field, i: nat)
    requires PrintsOut(newID, es, dump) && i < MAX_PLAYER_COUNT
    ensures LastValue(newID, Assigned(es), f, i) == Read(dump[i], f)
  {
    var r := Assigned(es);
    assert Covers(es, f, i);
    var n :| 0 <= n < |es| && es[n].field == f && es[n].index == i;
    forall m | 0 <= m < |r| && r[m].Some? && r[m].value.field == f && r[m].value.index == i
      ensures ParseCell(newID, f, r[m].value.value) == Read(dump[i], f)
    {
      CellOfPrinted(newID, es[m]);
    }
    LastValueAgreed(newID, r, f, i, Read(dump[i], f), n);
  }

  lemma SameCells(a: Slot, b: Slot)
    requires NothingUnprinted(a) && NothingUnprinted(b)
    requires forall f :: Read(a, f) == Read(b, f)
    ensures a == b
  {
    assert Read(a, NameField) == Read(b, NameField) && Read(a, PingField) == Read(b, PingField);
    assert Read(a, ScoreField) == Read(b, ScoreField) && Read(a, DeathsField) == Read(b, DeathsField);
    assert Read(a, ConnectedField) == Read(b, ConnectedField) && Read(a, TeamField) == Read(b, TeamField);
    assert Read(a, AliveField) == Read(b, AliveField) && Read(a, HealthField) == Read(b, HealthField);
    assert Read(a, AccountField) == Read(b, AccountField) && Read(a, ValidField) == Read(b, ValidField);
    assert Read(a, UserField) == Read(b, UserField);
  }

  lemma SlotOfPrintOut(newID: int -> SteamID, es: seq<Entry>, dump: seq<Slot>, i: nat)
    requires PrintsOut(newID, es, dump) && i < MAX_PLAYER_COUNT
    ensures Fold(newID, Assigned(es)).Parsed? && Fold(newID, Assigned(es)).slots[i] == dump[i]
  {
    PanicIff(newID, Assigned(es));
    var slot := Fold(newID, Assigned(es)).slots[i];
    forall f
      ensures Read(slot, f) == Read(dump[i], f)
    {
      LastLineWins(newID, Assigned(es), f, i);
      CellOfPrintOut(newID, es, dump, f, i);
    }
    UnprintedStayZero(newID, Assigned(es), i);
    SameCells(slot, dump[i]);
  }

  lemma FoldOfPrintOut(newID: int -> SteamID, es: seq<Entry>, dump: seq<Slot>)
    requires PrintsOut(newID, es, dump)
    ensures Fold(newID, Assigned(es)) == Parsed(dump)
  {
    PanicIff(newID, Assigned(es));
    forall i | 0 <= i < MAX_PLAYER_COUNT
      ensures Fold(newID, Assigned(es)).slots[i] == dump[i]
    {
      SlotOfPrintOut(newID, es, dump, i);
    }
    assert Fold(newID, Assigned(es)).slots == dump;
  }

  /** Printing a dump in any order, with any repetitions and line breaks, and parsing it gives the dump back. */
  lemma DumpRoundTrip(newID: int -> SteamID, es: seq<Entry>, ends: seq<string>, dump: seq<Slot>)
    requires PrintsOut(newID, es, dump) && PrintsLines(es, ends)
    ensures Parse(newID, Printed(es, ends)) == Parsed(dump)
  {
    EffectsOfPrinted(es, ends);
    FoldOfPrintOut(newID, es, dump);
  }

  /** A printed response stops the program exactly when one of its lines names a slot from 102 on. */
  lemma OverrunIff(newID: int -> SteamID, es: seq<Entry>, ends: seq<string>)
    requires PrintsLines(es, ends)
    ensures Parse(newID, Printed(es, ends)).IndexPanic? <==> exists n :: 0 <= n < |es| && es[n].index >= 102
  {
    EffectsOfPrinted(es, ends);
    PanicIff(newID, Assigned(es));
    AssignedIndexes(es);
  }

  lemma AssignedIndexes(es: seq<Entry>)
    ensures forall n :: 0 <= n < |es| ==> Assigned(es)[n].Some? && Assigned(es)[n].value.index == es[n].index
  {
  }

  // ---------------------------------------------------------------- lines by their literal text

  /** A line as the console writes it. */
  function Line(name: string, i: nat, word: string, value: string): string {
    name + "[" + Digits(i) + "] " + word + " (" + value + ")"
  }

  function LineText(name: string, i: nat, word: string, value: string): string {
    Line(name, i, word, value) + "\n"
  }

  /** A value on one line that the scanner can take. */
  predicate Sendable(name: string, i: nat, word: string, value: string) {
    '\n' !in value && |Line(name, i, word, value)| < 65536
  }

  lemma LineIsClean(name: string, i: nat, word: string, value: string)
    requires |name| > 0 && name[0] == 'm' && '\n' !in name
    requires IsTypeWord(word) && Sendable(name, i, word, value)
    ensures Clean(Line(name, i, word, value)) && TrimReturns(Line(name, i, word, value)) == Line(name, i, word, value)
  {
    DigitsPlain(Digits(i));
    var l := Line(name, i, word, value);
    assert '\n' !in word && '\n' !in "[" && '\n' !in "] " && '\n' !in " (" && '\n' !in ")";
    assert l[0] == 'm' && l[|l| - 1] == ')';
  }

  lemma TokensOfOne(l: string)
    requires Clean(l)
    ensures Tokens(Lines(l + "\n")) == [l]
  {
    TokensOfText([l], ["\n"]);
    var lines := Ended([l], ["\n"]);
    assert lines == [l + "\n"] && lines[1..] == [];
    assert Concat(lines) == (l + "\n") + Concat([]);
    assert Concat([]) == "" && l + "\n" + "" == l + "\n";
  }

  lemma EffectOfForm(f: Field, i: nat, word: string, value: string)
    requires IsTypeWord(word) && i <= MAX_INT32 && Sendable(FieldName(f), i, word, value)
    ensures var l := Line(FieldName(f), i, word, value);
            Clean(l) && Effect(l) == Some(Assignment(f, i, value))
  {
    FieldNameLetters(f);
    LineIsClean(FieldName(f), i, word, value);
    MatchOfForm(f, i, word, value);
    ParseDecimal(i);
  }

  lemma FoldOne(newID: int -> SteamID, f: Field, i: nat, value: string)
    ensures Fold(newID, [Some(Assignment(f, i, value))])
         == if i < MAX_PLAYER_COUNT then Parsed(EmptyDump()[i := Store(newID, ZERO_SLOT, f, value)]) else IndexPanic
  {
    assert [Some(Assignment(f, i, value))][..0] == [];
  }

  lemma EffectsOfOne(l: string)
    requires Clean(l)
    ensures Effects(Tokens(Lines(l + "\n"))) == [Effect(l)]
  {
    TokensOfOne(l);
  }

  /** One line on its own sets one cell of an otherwise empty dump, or runs off the arrays. */
  lemma ParseOne(newID: int -> SteamID, l: string, f: Field, i: nat, value: string)
    requires Clean(l) && Effect(l) == Some(Assignment(f, i, value))
    ensures Parse(newID, l + "\n")
         == if i < MAX_PLAYER_COUNT then Parsed(EmptyDump()[i := Store(newID, ZERO_SLOT, f, value)]) else IndexPanic
  {
    EffectsOfOne(l);
    FoldOne(newID, f, i, value);
  }

  /** The same for a line of the console's form, with its name and the resulting slot spelled out. */
  lemma NamedLine(newID: int -> SteamID, f: Field, name: string, i: nat, word: string, value: string, slot: Slot)
    requires FieldName(f) == name && Store(newID, ZERO_SLOT, f, value) == slot
    requires IsTypeWord(word) && i <= MAX_INT32 && Sendable(name, i, word, value)
    ensures Parse(newID, LineText(name, i, word, value))
         == if i < MAX_PLAYER_COUNT then Parsed(EmptyDump()[i := slot]) else IndexPanic
  {
    EffectOfForm(f, i, word, value);
    ParseOne(newID, Line(name, i, word, value), f, i, value);
  }

  lemma {:induction false} DigitsShort(n: nat, k: nat)
    requires k > 0 && n < Pow10(k)
    ensures |Digits(n)| <= k
  {
    if n < 10 {
    } else {
      assert k > 1 by {
        assert Pow10(1) == 10;
      }
      DigitsShort(n / 10, k - 1);
    }
  }

  function Pow10(k: nat): nat {
    if k == 0 then 1 else 10 * Pow10(k - 1)
  }

  lemma NumbersAreSendable(name: string, i: nat, v: int)
    requires |name| <= 20 && i <= MAX_INT32 && MIN_INT32 <= v <= MAX_INT32
    ensures Sendable(name, i, "integer", Decimal(v))
  {
    assert Pow10(10) == 10_000_000_000;
    DigitsShort(i, 10);
    DigitsShort(if v < 0 then -v else v, 10);
    DigitsPlain(Digits(if v < 0 then -v else v));
  }

  // Which array each value of the console goes to, by the name the console prints.

  lemma PingLine(newID: int -> SteamID, i: nat, v: int)
    requires i < 102 && -2147483648 <= v <= 2147483647
    ensures Parse(newID, LineText("m_iPing", i, "integer", Decimal(v)))
         == Parsed(EmptyDump()[i := ZERO_SLOT.(ping := v)])
  {
    ParseDecimal(v);
    NumbersAreSendable("m_iPing", i, v);
    NamedLine(newID, PingField, "m_iPing", i, "integer", Decimal(v), ZERO_SLOT.(ping := v));
  }

  lemma ScoreLine(newID: int -> SteamID, i: nat, v: int)
    requires i < 102 && -2147483648 <= v <= 2147483647
    ensures Parse(newID, LineText("m_iScore", i, "integer", Decimal(v)))
         == Parsed(EmptyDump()[i := ZERO_SLOT.(score := v)])
  {
    ParseDecimal(v);
    NumbersAreSendable("m_iScore", i, v);
    NamedLine(newID, ScoreField, "m_iScore", i, "integer", Decimal(v), ZERO_SLOT.(score := v));
  }

  lemma DeathsLine(newID: int -> SteamID, i: nat, v: int)
    requires i < 102 && -2147483648 <= v <= 2147483647
    ensures Parse(newID, LineText("m_iDeaths", i, "integer", Decimal(v)))
         == Parsed(EmptyDump()[i := ZERO_SLOT.(deaths := v)])
  {
    ParseDecimal(v);
    NumbersAreSendable("m_iDeaths", i, v);
    NamedLine(newID, DeathsField, "m_iDeaths", i, "integer", Decimal(v), ZERO_SLOT.(deaths := v));
  }

  lemma TeamLine(newID: int -> SteamID, i: nat, v: int)
    requires i < 102 && -2147483648 <= v <= 2147483647
    ensures Parse(newID, LineText("m_iTeam", i, "integer", Decimal(v)))
         == Parsed(EmptyDump()[i := ZERO_SLOT.(team := v)])
  {
    ParseDecimal(v);
    NumbersAreSendable("m_iTeam", i, v);
    NamedLine(newID, TeamField, "m_iTeam", i, "integer", Decimal(v), ZERO_SLOT.(team := v));
  }

  lemma HealthLine(newID: int -> SteamID, i: nat, v: int)
    requires i < 102 && -2147483648 <= v <= 2147483647
    ensures Parse(newID, LineText("m_iHealth", i, "integer", Decimal(v)))
         == Parsed(EmptyDump()[i := ZERO_SLOT.(health := v)])
  {
    ParseDecimal(v);
    NumbersAreSendable("m_iHealth", i, v);
    NamedLine(newID, HealthField, "m_iHealth", i, "integer", Decimal(v), ZERO_SLOT.(health := v));
  }

  lemma AccountLine(newID: int -> SteamID, i: nat, v: int)
    requires i < 102 && -2147483648 <= v <= 2147483647
    ensures Parse(newID, LineText("m_iAccountID", i, "integer", Decimal(v)))
         == Parsed(EmptyDump()[i := ZERO_SLOT.(steamID := newID(v))])
  {
    ParseDecimal(v);
    NumbersAreSendable("m_iAccountID", i, v);
    NamedLine(newID, AccountField, "m_iAccountID", i, "integer", Decimal(v), ZERO_SLOT.(steamID := newID(v)));
  }

  lemma UserLine(newID: int -> SteamID, i: nat, v: int)
    requires i < 102 && -2147483648 <= v <= 2147483647
    ensures Parse(newID, LineText("m_iUserID", i, "integer", Decimal(v)))
         == Parsed(EmptyDump()[i := ZERO_SLOT.(userID := v)])
  {
    ParseDecimal(v);
    NumbersAreSendable("m_iUserID", i, v);
    NamedLine(newID, UserField, "m_iUserID", i, "integer", Decimal(v), ZERO_SLOT.(userID := v));
  }

  /** The spellings that set a flag; every other value clears it. */
  predicate SetsFlag(value: string) {
    value == "1" || value == "t" || value == "T" || value == "TRUE" || value == "true" || value == "True"
  }

  lemma ConnectedLine(newID: int -> SteamID, i: nat, value: string)
    requires i < 102 && Sendable("m_bConnected", i, "bool", value)
    ensures Parse(newID, LineText("m_bConnected", i, "bool", value))
         == Parsed(EmptyDump()[i := ZERO_SLOT.(connected := SetsFlag(value))])
  {
    NamedLine(newID, ConnectedField, "m_bConnected", i, "bool", value, ZERO_SLOT.(connected := SetsFlag(value)));
  }

  lemma AliveLine(newID: int -> SteamID, i: nat, value: string)
    requires i < 102 && Sendable("m_bAlive", i, "bool", value)
    ensures Parse(newID, LineText("m_bAlive", i, "bool", value))
         == Parsed(EmptyDump()[i := ZERO_SLOT.(alive := SetsFlag(value))])
  {
    NamedLine(newID, AliveField, "m_bAlive", i, "bool", value, ZERO_SLOT.(alive := SetsFlag(value)));
  }

  lemma ValidLine(newID: int -> SteamID, i: nat, value: string)
    requires i < 102 && Sendable("m_bValid", i, "bool", value)
    ensures Parse(newID, LineText("m_bValid", i, "bool", value))
         == Parsed(EmptyDump()[i := ZERO_SLOT.(valid := SetsFlag(value))])
  {
    NamedLine(newID, ValidField, "m_bValid", i, "bool", value, ZERO_SLOT.(valid := SetsFlag(value)));
  }

  /** A value that is no 32-bit number reads as zero. */
  lemma BadNumberIsZero(newID: int -> SteamID, f: Field, i: nat, value: string)
    requires f.PingField? || f.ScoreField? || f.DeathsField? || f.TeamField? || f.HealthField?
    requires i < 102 && ParseInt32(value).None? && Sendable(FieldName(f), i, "integer", value)
    ensures Parse(newID, LineText(FieldName(f), i, "integer", value)) == Parsed(EmptyDump())
  {
    NamedLine(newID, f, FieldName(f), i, "integer", value, ZERO_SLOT);
    assert EmptyDump()[i := ZERO_SLOT] == EmptyDump();
  }

  /** Only a user id then reads as minus one. */
  lemma BadUserIsMinusOne(newID: int -> SteamID, i: nat, value: string)
    requires i < 102 && ParseInt32(value).None? && Sendable("m_iUserID", i, "integer", value)
    ensures Parse(newID, LineText("m_iUserID", i, "integer", value))
         == Parsed(EmptyDump()[i := ZERO_SLOT.(userID := -1)])
  {
    NamedLine(newID, UserField, "m_iUserID", i, "integer", value, ZERO_SLOT.(userID := -1));
  }

  /** The name is whatever stands between the first and the last parenthesis. */
  lemma NameLine(newID: int -> SteamID, i: nat, value: string)
    requires i < 102 && Sendable("m_szName", i, "string", value)
    ensures Parse(newID, LineText("m_szName", i, "string", value))
         == Parsed(EmptyDump()[i := ZERO_SLOT.(name := value)])
  {
    NamedLine(newID, NameField, "m_szName", i, "string", value, ZERO_SLOT.(name := value));
  }

  lemma OverrunText()
    ensures LineText("m_iPing", 102, "integer", "5") == "m_iPing[102] integer (5)\n"
  {
    assert Digits(102) == Digits(10) + ['2'] && Digits(10) == Digits(1) + ['0'];
    assert Digits(102) == "102";
  }

  /** One line is enough to run off the arrays. */
  lemma OverrunByOneLine(newID: int -> SteamID)
    ensures Parse(newID, "m_iPing[102] integer (5)\n") == IndexPanic
  {
    OverrunText();
    assert ParseInt32("5") == Some(5) by {
      ParseDecimal(5);
    }
    NamedLine(newID, PingField, "m_iPing", 102, "integer", "5", ZERO_SLOT.(ping := 5));
  }

  // ---------------------------------------------------------------- foreign lines

  /** The scanner gives up at a line of 65536 bytes and whatever follows it is not read. */
  lemma LongLineEndsScan(line: string, rest: string)
    requires IsLine(line) && |line| > 65536
    ensures Tokens(Lines(line + rest)) == []
  {
    LinesLine(line, rest);
  }

  lemma NoSuchField(word: string)
    requires word == "" || word[0] != 'm'
    ensures FieldIn(FIELDS, word) == None
  {
    var f := FieldIn(FIELDS, word);
    if f.Some? {
      FieldNameLetters(f.value);
    }
  }

  /** A line that does not start with the letter of the field names, or has no bracket, assigns nothing. */
  lemma ForeignLine(token: string)
    requires '[' !in token || (token != "" && token[0] != 'm' && token[0] != '\r')
    ensures Effect(token) == None
  {
    TrimReturnsKeeps(token);
    var line := TrimReturns(token);
    var b := IndexOf(line, '[');
    if b < |line| {
      NoSuchField(line[..b]);
    }
  }

  predicate Returns(r: string) {
    forall i :: 0 <= i < |r| ==> r[i] == '\r'
  }

  lemma {:induction false} TrimAround(left: string, l: string, right: string)
    requires Returns(left) && Returns(right) && l != "" && l[0] != '\r' && l[|l| - 1] != '\r'
    ensures TrimReturns(left + l + right) == l
    decreases |left| + |right|
  {
    var s := left + l + right;
    if left == [] && right == [] {
      assert s == l;
    } else if left != [] {
      assert s[0] == '\r' && s[1..] == left[1..] + l + right;
      TrimAround(left[1..], l, right);
    } else {
      var n := |right| - 1;
      assert s[0] == l[0] && s[|s| - 1] == '\r' && s[..|s| - 1] == left + l + right[..n];
      TrimAround(left, l, right[..n]);
    }
  }

  /** Carriage returns around a line do not matter. */
  lemma ReturnsIgnored(left: string, l: string, right: string)
    requires Returns(left) && Returns(right) && l != "" && l[0] != '\r' && l[|l| - 1] != '\r'
    ensures Effect(left + l + right) == Effect(l)
  {
    TrimAround(left, l, right);
  }

  lemma {:induction false} TrimReturnsKeeps(s: string)
    ensures '[' !in s ==> '[' !in TrimReturns(s)
    ensures s != "" && s[0] != '\r' ==> TrimReturns(s) != "" && TrimReturns(s)[0] == s[0]
    decreases |s|
  {
    if s != [] && s[0] == '\r' {
      TrimReturnsKeeps(s[1..]);
    } else if s != [] && s[|s| - 1] == '\r' {
      TrimReturnsKeeps(s[..|s| - 1]);
    } else {
    }
  }

  lemma {:induction false} FoldSkips(newID: int -> SteamID, a: seq<Option<Assignment>>, b: seq<Option<Assignment>>)
    ensures Fold(newID, a + [None] + b) == Fold(newID, a + b)
    decreases |b|
  {
    var l, r := a + [None] + b, a + b;
    if b == [] {
      assert l[..|a|] == a && r == a;
    } else {
      var n := |b| - 1;
      FoldSkips(newID, a, b[..n]);
      assert l[..|l| - 1] == a + [None] + b[..n] && r[..|r| - 1] == a + b[..n];
    }
  }

  function TokenOf(line: string): string {
    var c := Content(line);
    if c != [] && c[|c| - 1] == '\r' then c[..|c| - 1] else c
  }

  predicate Scannable(lines: seq<string>) {
    forall i :: 0 <= i < |lines| ==> |Content(lines[i])| < MAX_TOKEN
  }

  lemma TokensCons(line: string, b: seq<string>)
    ensures Tokens([line] + b) == if |Content(line)| < MAX_TOKEN then [TokenOf(line)] + Tokens(b) else []
  {
    assert ([line] + b)[1..] == b;
  }

  lemma ScannableCons(line: string, b: seq<string>)
    ensures Scannable([line] + b) <==> |Content(line)| < MAX_TOKEN && Scannable(b)
  {
    var all := [line] + b;
    assert all[0] == line;
    assert forall i :: 0 < i < |all| ==> all[i] == b[i - 1];
    if Scannable(all) {
      forall i | 0 <= i < |b|
        ensures |Content(b[i])| < MAX_TOKEN
      {
        assert all[i + 1] == b[i];
      }
    }
  }

  lemma TokensStep(line: string, rest: seq<string>, b: seq<string>)
    requires |Content(line)| < MAX_TOKEN && Tokens(rest + b) == Tokens(rest) + Tokens(b)
    ensures Tokens([line] + rest + b) == Tokens([line] + rest) + Tokens(b)
  {
    calc {
      Tokens([line] + rest + b);
      { assert [line] + rest + b == [line] + (rest + b); }
      Tokens([line] + (rest + b));
      { TokensCons(line, rest + b); }
      [TokenOf(line)] + (Tokens(rest) + Tokens(b));
      [TokenOf(line)] + Tokens(rest) + Tokens(b);
      { TokensCons(line, rest); }
      Tokens([line] + rest) + Tokens(b);
    }
  }

  lemma {:induction false} TokensBehind(a: seq<string>, b: seq<string>)
    requires Scannable(a)
    ensures Tokens(a + b) == Tokens(a) + Tokens(b)
    decreases |a|
  {
    if a == [] {
      assert a + b == b;
    } else {
      TokensBehind(a[1..], b);
      assert a == [a[0]] + a[1..];
      TokensStep(a[0], a[1..], b);
    }
  }

  lemma {:induction false} TokensStop(a: seq<string>, b: seq<string>)
    requires !Scannable(a)
    ensures Tokens(a + b) == Tokens(a)
    decreases |a|
  {
    var line, rest := a[0], a[1..];
    assert a + b == [line] + (rest + b) && a == [line] + rest;
    TokensCons(line, rest + b);
    TokensCons(line, rest);
    if |Content(line)| < MAX_TOKEN {
      ScannableCons(line, rest);
      TokensStop(rest, b);
    }
  }

  /** The scan goes on behind lines that are not too long, and ends at the first that is. */
  lemma TokensConcat(a: seq<string>, b: seq<string>)
    ensures Tokens(a + b) == if Scannable(a) then Tokens(a) + Tokens(b) else Tokens(a)
  {
    if Scannable(a) {
      TokensBehind(a, b);
    } else {
      TokensStop(a, b);
    }
  }

  lemma EffectsConcat(a: seq<string>, b: seq<string>)
    ensures Effects(a + b) == Effects(a) + Effects(b)
  {
    var all := a + b;
    forall i | 0 <= i < |all|
      ensures Effects(all)[i] == (Effects(a) + Effects(b))[i]
    {
      assert all[i] == if i < |a| then a[i] else b[i - |a|];
    }
  }

  lemma ForeignAmongTokens(newID: int -> SteamID, x: seq<string>, token: string, y: seq<string>)
    requires Effect(token) == None
    ensures Fold(newID, Effects(x + ([token] + y))) == Fold(newID, Effects(x + y))
  {
    EffectsConcat(x, [token] + y);
    EffectsConcat([token], y);
    EffectsConcat(x, y);
    assert Effects([token]) == [None];
    assert Effects(x) + ([None] + Effects(y)) == Effects(x) + [None] + Effects(y);
    FoldSkips(newID, Effects(x), Effects(y));
  }

  lemma ForeignAmongLines(newID: int -> SteamID, a: seq<string>, line: string, b: seq<string>)
    requires |Content(line)| < MAX_TOKEN && Effect(TokenOf(line)) == None
    ensures Fold(newID, Effects(Tokens(a + ([line] + b)))) == Fold(newID, Effects(Tokens(a + b)))
  {
    TokensConcat(a, [line] + b);
    TokensConcat(a, b);
    TokensCons(line, b);
    ForeignAmongTokens(newID, Tokens(a), TokenOf(line), Tokens(b));
  }

  lemma LinesAround(before: seq<string>, line: string, after: string)
    requires forall i :: 0 <= i < |before| ==> IsLine(before[i])
    requires IsLine(line)
    ensures Lines(Concat(before) + line + after) == before + ([line] + Lines(after))
  {
    calc {
      Lines(Concat(before) + line + after);
      { assert Concat(before) + line + after == Concat(before) + (line + after); }
      Lines(Concat(before) + (line + after));
      { LinesOfConcat(before, line + after); }
      before + Lines(line + after);
      { LinesLine(line, after); }
      before + ([line] + Lines(after));
    }
  }

  /** Lines that assign nothing, such as those of the status command, may stand anywhere in the response. */
  lemma ForeignLinesIgnored(newID: int -> SteamID, before: seq<string>, line: string, after: string)
    requires forall i :: 0 <= i < |before| ==> IsLine(before[i])
    requires IsLine(line) && |line| <= 65536 && Effect(TokenOf(line)) == None
    ensures Parse(newID, Concat(before) + line + after) == Parse(newID, Concat(before) + after)
  {
    LinesAround(before, line, after);
    LinesOfConcat(before, after);
    ForeignAmongLines(newID, before, line, Lines(after));
  }
}
