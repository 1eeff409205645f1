/** The format of a transcript line of each type, written by t_print and read by
    transcript_parse. */
module LineFormats {
  import opened Options
  import opened Paths
  import opened Entries
  import opened Codes
  import opened Argcargvs
  import opened Tlines

  function Letter(k: Kind): char {
    match k
    case Dir => 'd' case File => 'f' case AppleFile => 'a' case SymLink => 'l' case HardLink => 'h'
    case Pipe => 'p' case Block => 'b' case Character => 'c' case Socket => 's' case Door => 'D'
    case Absent => 'X'
  }

  function KindOf(c: char): Option<Kind> {
    match c
    case 'd' => Some(Dir) case 'f' => Some(File) case 'a' => Some(AppleFile) case 'l' => Some(SymLink)
    case 'h' => Some(HardLink) case 'p' => Some(Pipe) case 'b' => Some(Block) case 'c' => Some(Character)
    case 's' => Some(Socket) case 'D' => Some(Door)
    case _ => None
  }

  /* ---- writing ---- */

  function Word(w: string, sep: char): Field {
    Field(0, w, 0, sep)
  }

  /** "%5d" and the like. */
  function Number(n: int, width: nat, sep: char): Field {
    var w := Decimal(n);
    Field(if |w| < width then width - |w| else 0, w, 0, sep)
  }

  /** "%c %-37s\t". */
  function Named(k: Kind, p: Path, shell: bool): seq<Field> {
    var w := Encoded(p, shell);
    [Word([Letter(k)], ' '), Field(0, w, if |w| < 37 then 37 - |w| else 0, '\t')]
  }

  /** "%.4lo". */
  function Mode(o: Obj): Field {
    Word(Octal(Masked(o.mode)), ' ')
  }

  function Signed(sign: Sign): seq<Field> {
    match sign
    case Minus => [Word("-", ' ')]
    case Plus => [Word("+", ' ')]
    case Plain => []
  }

  /** The fields after the path. */
  function Rest(shell: bool, o: Obj): seq<Field> {
    var (m, u) := (Mode(o), Number(o.uid, 5, ' '));
    match o.kind
    case Dir | Pipe | Socket | Door | Absent => [m, u, Number(o.gid, 5, '\n')]
    case SymLink => [m, u, Number(o.gid, 5, ' '), Word(Encoded(o.link, shell), '\n')]
    case HardLink => [Word(Encoded(o.link, shell), '\n')]
    case File | AppleFile =>
      [m, u, Number(o.gid, 5, ' '), Number(o.mtime, 9, ' '), Number(o.size, 7, ' '), Word(o.cksum, '\n')]
    case Block | Character =>
      [m, u, Number(o.gid, 5, ' '), Number(o.rdev.0, 5, ' '), Number(o.rdev.1, 5, '\n')]
  }

  /** The fields of the line t_print writes. */
  function Pieces(sign: Sign, shell: bool, p: Path, o: Obj): seq<Field> {
    Signed(sign) + (Named(o.kind, p, shell) + Rest(shell, o))
  }

  /* ---- reading ---- */

  predicate AllBytes(s: string) {
    forall i :: 0 <= i < |s| ==> 0 < s[i] as int < 256
  }

  function DecodedPath(s: string): Option<Path> {
    match Decoded(s)
    case Some(r) => if AllBytes(r) then Some(r) else None
    case None => None
  }

  function WithOwner(prev: Obj, mode: string, uid: string, gid: string): Obj {
    prev.(mode := if Strtol(mode, 8) < 0 then 0 else Strtol(mode, 8), uid := Strtol(uid, 10), gid := Strtol(gid, 10))
  }

  /** The switch of transcript_parse; `prev` is what t_pinfo held before, for the fields a
      line of this type leaves alone. None is an exit over a malformed line. */
  function ParseFields(argv: seq<string>, needCksum: bool, prev: Obj): Option<Obj>
    requires |argv| >= 2 && argv[0] != []
  {
    var ac := |argv|;
    match KindOf(argv[0][0])
    case None => None
    case Some(k) =>
      match k
      case Dir =>
        if ac != 5 && ac != 6 then None else Some(WithOwner(prev, argv[2], argv[3], argv[4]).(kind := k))
      case Pipe | Socket | Door =>
        if ac != 5 then None else Some(WithOwner(prev, argv[2], argv[3], argv[4]).(kind := k))
      case Block | Character =>
        if ac != 7 then None
        else
          Some(WithOwner(prev, argv[2], argv[3], argv[4])
               .(kind := k, rdev := (Strtol(argv[5], 10), Strtol(argv[6], 10))))
      case SymLink =>
        if ac != 3 && ac != 6 then None
        else
          var o := if ac == 3 then prev.(mode := 0x1FF, uid := 0, gid := 0)
                   else WithOwner(prev, argv[2], argv[3], argv[4]);
          (match DecodedPath(argv[ac - 1]) case None => None case Some(l) => Some(o.(kind := k, link := l)))
      case HardLink =>
        if ac != 3 then None
        else
          (match DecodedPath(argv[2]) case None => None case Some(l) => Some(prev.(kind := k, link := l)))
      case File | AppleFile =>
        if ac != 8 || (needCksum && argv[7] == NOCKSUM) then None
        else
          Some(WithOwner(prev, argv[2], argv[3], argv[4]).(kind := k, mtime := Strtol(argv[5], 10),
               size := Strtol(argv[6], 10), cksum := argv[7]))
      case Absent => None
  }

  /** The words after a '-' and a '+', and whether there was a '-'. */
  function Unsigned(argv: seq<string>): (bool, seq<string>)
    requires |argv| >= 2 && argv[0] != []
  {
    var minus := argv[0][0] == '-';
    var argv1 := if minus then argv[1..] else argv;
    (minus, if argv1[0] != [] && argv1[0][0] == '+' then argv1[1..] else argv1)
  }

  /** transcript_parse on the words of a line, up to its check of the order. */
  function ParseLine(argv: seq<string>, needCksum: bool, prev: Obj): Option<Line> {
    if |argv| < 3 || |argv[0]| != 1 then None
    else
      var (minus, words) := Unsigned(argv);
      if |words| < 2 || words[0] == [] then None
      else
        match (DecodedPath(words[1]), ParseFields(words, needCksum, prev))
        case (Some(p), Some(o)) => Some(Line(minus, p, o))
        case _ => None
  }

  /** A line needs three words, and a sign or letter by itself; only a "-" makes it a removal. */
  lemma {:induction false} LineNeeds(argv: seq<string>, needCksum: bool, prev: Obj)
    requires ParseLine(argv, needCksum, prev).Some?
    ensures |argv| >= 3 && |argv[0]| == 1
    ensures ParseLine(argv, needCksum, prev).value.minus <==> argv[0] == "-"
  {
  }

  /* ---- the round trip ---- */

  /** Lines that can be written so as to be read again. */
  predicate Writable(p: Path, o: Obj, needCksum: bool) {
    && p != [] && o.kind != Absent
    && (o.kind == SymLink || o.kind == HardLink ==> o.link != [])
    && (IsFile(o.kind) ==> Bare(o.cksum) && (needCksum ==> o.cksum != NOCKSUM))
  }

  /** What reading the line leaves: the attributes on it, with the mode masked. */
  function Onto(prev: Obj, o: Obj): Obj {
    var owned := prev.(kind := o.kind, mode := Masked(o.mode), uid := o.uid, gid := o.gid);
    match o.kind
    case Dir | Pipe | Socket | Door | Absent => owned
    case SymLink => owned.(link := o.link)
    case HardLink => prev.(kind := HardLink, link := o.link)
    case File | AppleFile => owned.(mtime := o.mtime, size := o.size, cksum := o.cksum)
    case Block | Character => owned.(rdev := o.rdev)
  }

  lemma {:induction false} DigitsAreBare(n: nat, base: nat)
    requires base == 8 || base == 10
    ensures Bare(Digits(n, base))
  {
  }

  lemma {:induction false} NumberIsOk(n: int, width: nat, sep: char)
    requires sep == ' ' || sep == '\n'
    ensures FieldOk(Number(n, width, sep))
  {
    DigitsAreBare(if n < 0 then -n else n, 10);
    assert Bare(Decimal(n));
    BareIsClean(Decimal(n));
  }

  lemma {:induction false} ModeIsOk(o: Obj)
    ensures FieldOk(Mode(o))
  {
    DigitsAreBare(Masked(o.mode), 8);
    assert Bare(Octal(Masked(o.mode)));
    BareIsClean(Octal(Masked(o.mode)));
  }

  predicate AllOk(fs: seq<Field>) {
    forall i :: 0 <= i < |fs| ==> FieldOk(fs[i])
  }

  lemma {:induction false} NamedIsOk(k: Kind, p: Path, shell: bool)
    requires p != []
    ensures AllOk(Named(k, p, shell))
  {
    EncodedIsClean(p, shell);
    BareIsClean([Letter(k)]);
  }

  lemma {:induction false} LinkIsOk(link: Path, shell: bool)
    requires link != []
    ensures FieldOk(Word(Encoded(link, shell), '\n'))
  {
    EncodedIsClean(link, shell);
  }

  lemma {:induction false} OkAppend(a: seq<Field>, f: Field)
    requires AllOk(a) && FieldOk(f)
    ensures AllOk(a + [f])
  {
  }

  lemma {:induction false} OwnedIsOk(o: Obj, sep: char)
    requires sep == ' ' || sep == '\n'
    ensures AllOk([Mode(o), Number(o.uid, 5, ' '), Number(o.gid, 5, sep)])
  {
    var m, u, g := Mode(o), Number(o.uid, 5, ' '), Number(o.gid, 5, sep);
    ModeIsOk(o);
    NumberIsOk(o.uid, 5, ' ');
    NumberIsOk(o.gid, 5, sep);
    OkAppend([], m);
    assert [] + [m] == [m];
    OkAppend([m], u);
    assert [m] + [u] == [m, u];
    OkAppend([m, u], g);
    assert [m, u] + [g] == [m, u, g];
  }

  lemma {:induction false} FileIsOk(shell: bool, o: Obj)
    requires IsFile(o.kind) && Bare(o.cksum)
    ensures AllOk(Rest(shell, o))
  {
    var owned := [Mode(o), Number(o.uid, 5, ' '), Number(o.gid, 5, ' ')];
    var t, n, c := Number(o.mtime, 9, ' '), Number(o.size, 7, ' '), Word(o.cksum, '\n');
    OwnedIsOk(o, ' ');
    NumberIsOk(o.mtime, 9, ' ');
    NumberIsOk(o.size, 7, ' ');
    BareIsClean(o.cksum);
    OkAppend(owned, t);
    OkAppend(owned + [t], n);
    OkAppend(owned + [t] + [n], c);
    assert Rest(shell, o) == owned + [t] + [n] + [c];
  }

  lemma {:induction false} DeviceIsOk(shell: bool, o: Obj)
    requires o.kind == Block || o.kind == Character
    ensures AllOk(Rest(shell, o))
  {
    var owned := [Mode(o), Number(o.uid, 5, ' '), Number(o.gid, 5, ' ')];
    var major, minor := Number(o.rdev.0, 5, ' '), Number(o.rdev.1, 5, '\n');
    OwnedIsOk(o, ' ');
    NumberIsOk(o.rdev.0, 5, ' ');
    NumberIsOk(o.rdev.1, 5, '\n');
    OkAppend(owned, major);
    OkAppend(owned + [major], minor);
    assert Rest(shell, o) == owned + [major] + [minor];
  }

  lemma {:induction false} LinkedIsOk(shell: bool, o: Obj)
    requires (o.kind == SymLink || o.kind == HardLink) && o.link != []
    ensures AllOk(Rest(shell, o))
  {
    var owned := [Mode(o), Number(o.uid, 5, ' '), Number(o.gid, 5, ' ')];
    var l := Word(Encoded(o.link, shell), '\n');
    LinkIsOk(o.link, shell);
    OwnedIsOk(o, ' ');
    OkAppend([], l);
    assert [] + [l] == [l];
    OkAppend(owned, l);
    assert Rest(shell, o) == if o.kind == SymLink then owned + [l] else [l];
  }

  lemma {:induction false} RestIsOk(shell: bool, p: Path, o: Obj, needCksum: bool)
    requires Writable(p, o, needCksum)
    ensures AllOk(Rest(shell, o))
  {
    match o.kind
    case File | AppleFile => FileIsOk(shell, o);
    case Block | Character => DeviceIsOk(shell, o);
    case SymLink | HardLink => LinkedIsOk(shell, o);
    case Dir | Pipe | Socket | Door => OwnedIsOk(o, '\n');
  }

  lemma {:induction false} PiecesAreOk(sign: Sign, shell: bool, p: Path, o: Obj, needCksum: bool)
    requires Writable(p, o, needCksum)
    ensures AllOk(Pieces(sign, shell, p, o))
  {
    NamedIsOk(o.kind, p, shell);
    RestIsOk(shell, p, o, needCksum);
    if sign != Plain {
      BareIsClean(Signed(sign)[0].word);
    }
  }

  /** The words after the path. */
  function RestWords(shell: bool, o: Obj): seq<string> {
    var (m, u, g) := (Octal(Masked(o.mode)), Decimal(o.uid), Decimal(o.gid));
    match o.kind
    case Dir | Pipe | Socket | Door | Absent => [m, u, g]
    case SymLink => [m, u, g, Encoded(o.link, shell)]
    case HardLink => [Encoded(o.link, shell)]
    case File | AppleFile => [m, u, g, Decimal(o.mtime), Decimal(o.size), o.cksum]
    case Block | Character => [m, u, g, Decimal(o.rdev.0), Decimal(o.rdev.1)]
  }

  /** The words after the sign. */
  function Spoken(shell: bool, p: Path, o: Obj): seq<string> {
    [[Letter(o.kind)], Encoded(p, shell)] + RestWords(shell, o)
  }

  lemma {:induction false} PathRead(p: Path, shell: bool)
    ensures DecodedPath(Encoded(p, shell)) == Some(p)
  {
    DecodeInverts(p, shell);
  }

  lemma {:induction false} OwnerRead(prev: Obj, o: Obj)
    ensures WithOwner(prev, Octal(Masked(o.mode)), Decimal(o.uid), Decimal(o.gid)) ==
            prev.(mode := Masked(o.mode), uid := o.uid, gid := o.gid)
  {
    OctalRead(Masked(o.mode));
    DecimalRead(o.uid);
    DecimalRead(o.gid);
  }

  lemma {:induction false} OwnedRead(shell: bool, p: Path, o: Obj, needCksum: bool, prev: Obj)
    requires o.kind == Dir || o.kind == Pipe || o.kind == Socket || o.kind == Door
    ensures ParseFields(Spoken(shell, p, o), needCksum, prev) == Some(Onto(prev, o))
  {
    OwnerRead(prev, o);
  }

  lemma {:induction false} LinkRead(shell: bool, p: Path, o: Obj, needCksum: bool, prev: Obj)
    requires o.kind == SymLink || o.kind == HardLink
    ensures ParseFields(Spoken(shell, p, o), needCksum, prev) == Some(Onto(prev, o))
  {
    OwnerRead(prev, o);
    PathRead(o.link, shell);
  }

  lemma {:induction false} FileRead(shell: bool, p: Path, o: Obj, needCksum: bool, prev: Obj)
    requires IsFile(o.kind) && (needCksum ==> o.cksum != NOCKSUM)
    ensures ParseFields(Spoken(shell, p, o), needCksum, prev) == Some(Onto(prev, o))
  {
    OwnerRead(prev, o);
    DecimalRead(o.mtime);
    DecimalRead(o.size);
  }

  lemma {:induction false} DeviceRead(shell: bool, p: Path, o: Obj, needCksum: bool, prev: Obj)
    requires o.kind == Block || o.kind == Character
    ensures ParseFields(Spoken(shell, p, o), needCksum, prev) == Some(Onto(prev, o))
  {
    OwnerRead(prev, o);
    DecimalRead(o.rdev.0);
    DecimalRead(o.rdev.1);
  }

  /** Each type's fields are read back as they were written. */
  lemma {:induction false} FieldsRead(shell: bool, p: Path, o: Obj, needCksum: bool, prev: Obj)
    requires Writable(p, o, needCksum)
    ensures ParseFields(Spoken(shell, p, o), needCksum, prev) == Some(Onto(prev, o))
  {
    match o.kind
    case Dir | Pipe | Socket | Door => OwnedRead(shell, p, o, needCksum, prev);
    case SymLink | HardLink => LinkRead(shell, p, o, needCksum, prev);
    case File | AppleFile => FileRead(shell, p, o, needCksum, prev);
    case Block | Character => DeviceRead(shell, p, o, needCksum, prev);
  }

  /** A line written by t_print, under either encoder, is read back: the same sign, path and
      type, and the attributes its type carries. */
  lemma {:induction false} LineRoundTrip(sign: Sign, shell: bool, p: Path, o: Obj, needCksum: bool, prev: Obj)
    requires Writable(p, o, needCksum)
    ensures ParseLine(Words(Text(Pieces(sign, shell, p, o))), needCksum, prev) ==
            Some(Line(sign == Minus, p, Onto(prev, o)))
  {
    WordsAreSpoken(sign, shell, p, o, needCksum);
    FieldsRead(shell, p, o, needCksum, prev);
    PathRead(p, shell);
    SpokenIsRead(sign, p, Spoken(shell, p, o), needCksum, prev);
  }

  lemma {:induction false} WordsAreSpoken(sign: Sign, shell: bool, p: Path, o: Obj, needCksum: bool)
    requires Writable(p, o, needCksum)
    ensures Words(Text(Pieces(sign, shell, p, o))) == SignWord(sign) + Spoken(shell, p, o)
  {
    PiecesAreOk(sign, shell, p, o, needCksum);
    FieldsAreWords(Pieces(sign, shell, p, o));
    SpokenAfterSign(sign, shell, p, o);
  }

  function SignWord(sign: Sign): seq<string> {
    match sign
    case Minus => ["-"]
    case Plus => ["+"]
    case Plain => []
  }

  lemma {:induction false} WordsInAppend(a: seq<Field>, b: seq<Field>)
    ensures WordsIn(a + b) == WordsIn(a) + WordsIn(b)
  {
  }

  lemma {:induction false} RestAre(shell: bool, o: Obj)
    ensures WordsIn(Rest(shell, o)) == RestWords(shell, o)
  {
  }

  lemma {:induction false} SpokenAfterSign(sign: Sign, shell: bool, p: Path, o: Obj)
    ensures WordsIn(Pieces(sign, shell, p, o)) == SignWord(sign) + Spoken(shell, p, o)
  {
    var named, rest := Named(o.kind, p, shell), Rest(shell, o);
    WordsInAppend(Signed(sign), named + rest);
    WordsInAppend(named, rest);
    RestAre(shell, o);
    assert WordsIn(named) == [[Letter(o.kind)], Encoded(p, shell)];
    assert WordsIn(Signed(sign)) == SignWord(sign);
  }

  lemma {:induction false} SignIsRead(sign: Sign, spoken: seq<string>)
    requires |spoken| >= 2 && |spoken[0]| == 1 && spoken[0][0] != '-' && spoken[0][0] != '+'
    ensures Unsigned(SignWord(sign) + spoken) == (sign == Minus, spoken)
  {
    var argv := SignWord(sign) + spoken;
    if sign == Plain {
      assert argv == spoken;
    } else {
      assert argv[1..] == spoken;
    }
  }

  lemma {:induction false} SpokenIsRead(sign: Sign, p: Path, spoken: seq<string>, needCksum: bool, prev: Obj)
    requires |spoken| >= 3 && |spoken[0]| == 1 && spoken[0][0] != '-' && spoken[0][0] != '+'
    requires DecodedPath(spoken[1]) == Some(p) && ParseFields(spoken, needCksum, prev).Some?
    ensures ParseLine(SignWord(sign) + spoken, needCksum, prev) ==
            Some(Line(sign == Minus, p, ParseFields(spoken, needCksum, prev).value))
  {
    SignIsRead(sign, spoken);
  }

  /* ---- the columns ---- */

  predicate HasLetter(k: Kind, c: char) {
    || (k == Dir && c == 'd') || (k == File && c == 'f') || (k == AppleFile && c == 'a') || (k == SymLink && c == 'l')
    || (k == HardLink && c == 'h') || (k == Pipe && c == 'p') || (k == Block && c == 'b')
    || (k == Character && c == 'c') || (k == Socket && c == 's') || (k == Door && c == 'D')
  }

  /** Which words a line has, and in which order: type, path, mode, owner, group, and then what
      the type calls for. */
  predicate InColumns(w: seq<string>, shell: bool, p: Path, o: Obj) {
    && |w| >= 3 && |w[0]| == 1 && HasLetter(o.kind, w[0][0]) && w[1] == Encoded(p, shell)
    && (o.kind == HardLink ==> |w| == 3 && w[2] == Encoded(o.link, shell))
    && (o.kind != HardLink ==>
          |w| >= 5 && w[2] == Octal(o.mode % 0x1000) && w[3] == Decimal(o.uid) && w[4] == Decimal(o.gid))
    && (o.kind == Dir || o.kind == Pipe || o.kind == Socket || o.kind == Door ==> |w| == 5)
    && (o.kind == SymLink ==> |w| == 6 && w[5] == Encoded(o.link, shell))
    && (o.kind == Block || o.kind == Character ==>
          |w| == 7 && w[5] == Decimal(o.rdev.0) && w[6] == Decimal(o.rdev.1))
    && (IsFile(o.kind) ==> |w| == 8 && w[5] == Decimal(o.mtime) && w[6] == Decimal(o.size) && w[7] == o.cksum)
  }

  /** The words of the line t_print writes: a sign, if any, and then the columns. */
  lemma {:induction false} LineHasColumns(sign: Sign, shell: bool, p: Path, o: Obj, needCksum: bool)
    requires Writable(p, o, needCksum)
    ensures var w := Words(Text(Pieces(sign, shell, p, o)));
            if sign == Plain then InColumns(w, shell, p, o)
            else w != [] && w[0] == (if sign == Minus then "-" else "+") && InColumns(w[1..], shell, p, o)
  {
    WordsAreSpoken(sign, shell, p, o, needCksum);
    SpokenInColumns(shell, p, o, needCksum);
    SignFirst(sign, Spoken(shell, p, o));
  }

  lemma {:induction false} SignFirst(sign: Sign, w: seq<string>)
    ensures if sign == Plain then SignWord(sign) + w == w
            else (SignWord(sign) + w)[0] == (if sign == Minus then "-" else "+") && (SignWord(sign) + w)[1..] == w
  {
  }

  lemma {:induction false} SpokenInColumns(shell: bool, p: Path, o: Obj, needCksum: bool)
    requires Writable(p, o, needCksum)
    ensures InColumns(Spoken(shell, p, o), shell, p, o)
  {
    var w, r := Spoken(shell, p, o), RestWords(shell, o);
    assert |w| == 2 + |r| && w[0] == [Letter(o.kind)] && w[1] == Encoded(p, shell);
    assert forall i :: 0 <= i < |r| ==> w[2 + i] == r[i];
  }

  /** The path is padded on the right, and numbers on the left, to the widths of the format. */
  lemma {:induction false} Padded(k: Kind, p: Path, shell: bool, n: int, width: nat, sep: char)
    ensures var path := FieldText(Named(k, p, shell)[1]);
            |path| == 1 + (if |Encoded(p, shell)| < 37 then 37 else |Encoded(p, shell)|) && path[|path| - 1] == '\t'
    ensures var number := FieldText(Number(n, width, sep));
            && |number| == 1 + (if |Decimal(n)| < width then width else |Decimal(n)|)
            && number[|number| - 1 - |Decimal(n)|..|number| - 1] == Decimal(n)
  {
  }

  /** How many words there may be after the type and the path, and what they must be. */
  predicate Readable(argv: seq<string>, needCksum: bool)
    requires |argv| >= 2 && argv[0] != []
  {
    var c, ac := argv[0][0], |argv|;
    || (c == 'd' && (ac == 5 || ac == 6))
    || ((c == 'p' || c == 's' || c == 'D') && ac == 5)
    || ((c == 'b' || c == 'c') && ac == 7)
    || (c == 'l' && (ac == 3 || ac == 6) && DecodedPath(argv[ac - 1]).Some?)
    || (c == 'h' && ac == 3 && DecodedPath(argv[2]).Some?)
    || ((c == 'f' || c == 'a') && ac == 8 && (needCksum ==> argv[7] != NOCKSUM))
  }

  /** Exactly such words are read; a link without owner and mode gets root's and 0777. */
  lemma {:induction false} ReadIffReadable(argv: seq<string>, needCksum: bool, prev: Obj)
    requires |argv| >= 2 && argv[0] != []
    ensures var r := ParseFields(argv, needCksum, prev);
            && (r.Some? <==> Readable(argv, needCksum))
            && (r.Some? ==> HasLetter(r.value.kind, argv[0][0]))
            && (r.Some? && argv[0][0] == 'l' && |argv| == 3 ==>
                  r.value.mode == 0x1FF && r.value.uid == 0 && r.value.gid == 0)
  {
  }

  /* ---- through the buffer ---- */

  lemma {:induction false} WordHasNoNul(a: string, start: nat, w: string, end: nat)
    requires WordAt(a, start, w, false, end)
    ensures forall i :: start <= i < start + |w| ==> a[i] == w[i - start] && a[i] != '\0'
  {
    assert forall i :: start <= i < start + |w| ==> a[i] == a[start..start + |w|][i - start];
  }

  /** The C string at `start`. */
  method StringAt(line: array<char>, start: nat, ghost w: string, ghost end: nat) returns (r: string)
    requires end <= line.Length && WordAt(line[..], start, w, false, end)
    ensures r == w
  {
    WordHasNoNul(line[..], start, w, end);
    assert forall i :: start <= i < start + |w| ==> line[i] == line[..][i];
    assert line[start + |w|] == line[..][start + |w|];
    r := [];
    var i := start;
    while line[i] != '\0'
      invariant start <= i <= start + |w| < line.Length && r == w[..i - start]
      decreases line.Length - i
    {
      r := r + [line[i]];
      i := i + 1;
    }
    assert w[..|w|] == w;
  }

  /** A whole line: tokenised in its buffer, and its words parsed. */
  method ReadLine(line: array<char>, n: nat, needCksum: bool, prev: Obj) returns (r: Option<Line>)
    requires n < line.Length && line[n] == '\0' && forall k :: 0 <= k < n ==> line[k] != '\0'
    modifies line
    ensures r == ParseLine(Words(old(line[..n])), needCksum, prev)
  {
    ghost var words := Words(line[..n]);
    var acav := new Acav();
    var ac := acav.Parse(line, n);
    var argv: seq<string> := [];
    var k := 0;
    while k < ac
      invariant 0 <= k <= ac < acav.argv.Length && argv == words[..k]
      invariant WordsAt(line[..], acav.argv[..ac], Split(words, false), n + 1)
    {
      assert acav.argv[..ac][k] == acav.argv[k];
      assert WordAt(line[..], acav.argv[..ac][k], words[k], false, n + 1);
      var w := StringAt(line, acav.argv[k], words[k], n + 1);
      argv := argv + [w];
      k := k + 1;
    }
    assert words[..|words|] == words;
    r := ParseLine(argv, needCksum, prev);
  }
}
