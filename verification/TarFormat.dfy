/** The header block of an archive entry: numbers printed in octal into fixed fields,
    with a checksum, and how they are read back. */
module TarFormat {
  import opened Bytes

  const TBLOCK := 512
  const NAMSIZ := 100
  const MODE := 100      // where each field starts
  const UID := 108
  const GID := 116
  const SIZE := 124
  const MTIME := 136
  const CHKSUM := 148
  const LINKFLAG := 156

  const SP: byte := 32
  const ZERO: byte := 48

  /** A regular file with one link. The mode is the number that is stored for it. */
  datatype File = File(name: seq<byte>, mode: nat, uid: nat, mtime: nat, content: seq<byte>)

  function Eight(k: nat): (r: nat)
    ensures r > 0
  {
    if k == 0 then 1 else 8 * Eight(k - 1)
  }

  /** What the file system can name and the numbers a file can have. */
  ghost predicate Regular(f: File) {
    && f.name != [] && f.name[|f.name| - 1] != SLASH && (forall c :: c in f.name ==> 0 < c < 128)
    && f.mode < Eight(7) && f.uid < Eight(7) && f.mtime < WORD && |f.content| < 0x8000_0000
  }

  // ---------- printing and scanning octal numbers ----------

  function Digits(v: nat): (s: seq<byte>)
    ensures s != []
  {
    if v < 8 then [ZERO + v] else Digits(v / 8) + [ZERO + v % 8]
  }

  /** Format "%<w>o". */
  function Print(w: nat, v: nat): seq<byte> {
    var ds := Digits(v);
    if |ds| < w then Repeat(w - |ds|, SP) + ds else ds
  }

  predicate IsOctal(c: byte) { ZERO <= c < ZERO + 8 }

  function ScanDigits(acc: nat, s: seq<byte>): nat
    decreases |s|
  {
    if s != [] && IsOctal(s[0]) then ScanDigits(8 * acc + (s[0] - ZERO), s[1..]) else acc
  }

  /** Format "%o". */
  function Scan(s: seq<byte>): nat {
    if s != [] && s[0] == SP then Scan(s[1..]) else ScanDigits(0, s)
  }

  lemma {:induction false} DigitsFit(v: nat, k: nat)
    requires k > 0 && v < Eight(k)
    ensures |Digits(v)| <= k
  {
    if v >= 8 {
      if k > 1 {
        DigitsFit(v / 8, k - 1);
      } else {
        assert false;
      }
    }
  }

  lemma PrintFits(w: nat, v: nat, k: nat)
    requires k > 0 && v < Eight(k)
    ensures w <= |Print(w, v)| <= if w < k then k else w
  {
    DigitsFit(v, k);
  }

  lemma {:induction false} ScanOfDigits(v: nat, rest: seq<byte>)
    ensures ScanDigits(0, Digits(v) + rest) == ScanDigits(v, rest)
    decreases v
  {
    var d := ZERO + v % 8;
    if v < 8 {
      assert (Digits(v) + rest)[1..] == rest;
    } else {
      assert Digits(v) + rest == Digits(v / 8) + ([d] + rest);
      ScanOfDigits(v / 8, [d] + rest);
      assert ([d] + rest)[1..] == rest;
    }
  }

  lemma {:induction false} ScanSkips(n: nat, s: seq<byte>)
    ensures Scan(Repeat(n, SP) + s) == Scan(s)
  {
    if n == 0 {
      assert Repeat(0, SP) + s == s;
    } else {
      assert (Repeat(n, SP) + s)[1..] == Repeat(n - 1, SP) + s;
      ScanSkips(n - 1, s);
    }
  }

  lemma {:induction false} DigitsStart(v: nat)
    ensures IsOctal(Digits(v)[0])
  {
    if v >= 8 {
      DigitsStart(v / 8);
    }
  }

  /** A printed number is scanned back, whatever follows its end. */
  lemma ScanOfPrint(w: nat, v: nat, rest: seq<byte>)
    requires rest != [] && !IsOctal(rest[0])
    ensures Scan(Print(w, v) + rest) == v
  {
    var ds := Digits(v);
    DigitsStart(v);
    assert (ds + rest)[0] == ds[0];
    ScanOfDigits(v, rest);
    if |ds| < w {
      ScanSkips(w - |ds|, ds + rest);
      Assoc(Repeat(w - |ds|, SP), ds, rest);
    }
  }

  // ---------- writing over part of a block ----------

  function Overlay(h: seq<byte>, off: nat, s: seq<byte>): (r: seq<byte>)
    ensures |r| == |h|
  {
    if off + |s| <= |h| then h[..off] + s + h[off + |s|..] else h
  }

  lemma OverlayAt(h: seq<byte>, off: nat, s: seq<byte>, m: seq<byte>)
    requires off + |s| <= |h| && m <= s
    ensures At(Overlay(h, off, s), off, m)
  {
  }

  lemma OverlayKeeps(h: seq<byte>, off: nat, s: seq<byte>, a: nat, m: seq<byte>)
    requires off + |s| <= |h| && At(h, a, m) && (a + |m| <= off || off + |s| <= a)
    ensures At(Overlay(h, off, s), a, m)
  {
    var r := Overlay(h, off, s);
    assert r[a..a + |m|] == h[a..a + |m|];
  }

  // ---------- the header ----------

  function Sum(s: seq<byte>): nat {
    if s == [] then 0 else s[0] as int + Sum(s[1..])
  }

  /** The header with its checksum field still blank. */
  function Blank(h: seq<byte>): seq<byte> { Overlay(h, CHKSUM, Repeat(8, SP)) }

  function Text(w: nat, v: nat): seq<byte> { Print(w, v) + [SP] }

  /** The number fields, each text overwriting the end of the one before it. */
  function Numbers(f: File): seq<byte> {
    var h1 := Overlay(Repeat(TBLOCK, 0), MODE, Text(6, f.mode) + [0]);
    var h2 := Overlay(h1, UID, Text(6, f.uid) + [0]);
    var h3 := Overlay(h2, GID, Text(6, 0) + [0]);
    var h4 := Overlay(h3, SIZE, Text(11, |f.content|) + [0]);
    Overlay(h4, MTIME, Text(11, f.mtime) + [0])
  }

  function Unsummed(f: File): (h: seq<byte>)
    ensures |h| == TBLOCK
  {
    Blank(Overlay(Numbers(f), 0, f.name + [0]))
  }

  function Header(f: File): (h: seq<byte>)
    ensures |h| == TBLOCK
  {
    var h := Unsummed(f);
    Overlay(h, CHKSUM, Print(6, Sum(h)) + [0])
  }

  lemma SizesOfTexts(f: File)
    requires Regular(f)
    ensures 7 <= |Text(6, f.mode)| <= 8 && 7 <= |Text(6, f.uid)| <= 8 && |Text(6, 0)| == 7
    ensures |Text(11, |f.content|)| == 12 && |Text(11, f.mtime)| == 12
  {
    PrintFits(6, f.mode, 7);
    PrintFits(6, f.uid, 7);
    assert Eight(6) == 262144;
    PrintFits(6, 0, 6);
    assert Eight(11) == 0x2_0000_0000;
    PrintFits(11, |f.content|, 11);
    PrintFits(11, f.mtime, 11);
  }

  /** Every number's text is complete in the finished number fields. */
  lemma NumbersStand(f: File)
    requires Regular(f)
    ensures var h := Numbers(f);
            && At(h, MODE, Text(6, f.mode)) && At(h, UID, Text(6, f.uid))
            && At(h, SIZE, Text(11, |f.content|)) && At(h, MTIME, Text(11, f.mtime))
  {
    SizesOfTexts(f);
    var t1, t2, t3 := Text(6, f.mode), Text(6, f.uid), Text(6, 0);
    var t4, t5 := Text(11, |f.content|), Text(11, f.mtime);
    var h0 := Repeat(TBLOCK, 0);
    var h1 := Overlay(h0, MODE, t1 + [0]);
    var h2 := Overlay(h1, UID, t2 + [0]);
    var h3 := Overlay(h2, GID, t3 + [0]);
    var h4 := Overlay(h3, SIZE, t4 + [0]);
    OverlayAt(h0, MODE, t1 + [0], t1);
    OverlayKeeps(h1, UID, t2 + [0], MODE, t1);
    OverlayAt(h1, UID, t2 + [0], t2);
    OverlayKeeps(h2, GID, t3 + [0], MODE, t1);
    OverlayKeeps(h2, GID, t3 + [0], UID, t2);
    OverlayKeeps(h3, SIZE, t4 + [0], MODE, t1);
    OverlayKeeps(h3, SIZE, t4 + [0], UID, t2);
    OverlayAt(h3, SIZE, t4 + [0], t4);
    OverlayKeeps(h4, MTIME, t5 + [0], MODE, t1);
    OverlayKeeps(h4, MTIME, t5 + [0], UID, t2);
    OverlayKeeps(h4, MTIME, t5 + [0], SIZE, t4);
    OverlayAt(h4, MTIME, t5 + [0], t5);
  }

  /** Nothing written in front of the link flag reaches it. */
  lemma NumbersEnd(f: File)
    requires Regular(f)
    ensures At(Numbers(f), LINKFLAG, [0])
  {
    SizesOfTexts(f);
    var h0 := Repeat(TBLOCK, 0);
    var h1 := Overlay(h0, MODE, Text(6, f.mode) + [0]);
    var h2 := Overlay(h1, UID, Text(6, f.uid) + [0]);
    var h3 := Overlay(h2, GID, Text(6, 0) + [0]);
    var h4 := Overlay(h3, SIZE, Text(11, |f.content|) + [0]);
    OverlayKeeps(h0, MODE, Text(6, f.mode) + [0], LINKFLAG, [0]);
    OverlayKeeps(h1, UID, Text(6, f.uid) + [0], LINKFLAG, [0]);
    OverlayKeeps(h2, GID, Text(6, 0) + [0], LINKFLAG, [0]);
    OverlayKeeps(h3, SIZE, Text(11, |f.content|) + [0], LINKFLAG, [0]);
    OverlayKeeps(h4, MTIME, Text(11, f.mtime) + [0], LINKFLAG, [0]);
  }

  lemma {:induction false} SumBound(s: seq<byte>)
    ensures Sum(s) <= 255 * |s|
  {
    if s != [] {
      SumBound(s[1..]);
    }
  }

  lemma ChecksumText(f: File)
    ensures 6 == |Print(6, Sum(Unsummed(f)))|
  {
    SumBound(Unsummed(f));
    assert Eight(6) == 262144;
    PrintFits(6, Sum(Unsummed(f)), 6);
  }

  /** A text in front of the checksum and behind the name is in the header too. */
  lemma NumberKept(f: File, a: nat, m: seq<byte>)
    requires |f.name| < NAMSIZ && NAMSIZ <= a && a + |m| <= CHKSUM && At(Numbers(f), a, m)
    ensures At(Header(f), a, m)
  {
    var h := Overlay(Numbers(f), 0, f.name + [0]);
    OverlayKeeps(Numbers(f), 0, f.name + [0], a, m);
    OverlayKeeps(h, CHKSUM, Repeat(8, SP), a, m);
    ChecksumText(f);
    OverlayKeeps(Unsummed(f), CHKSUM, Print(6, Sum(Unsummed(f))) + [0], a, m);
  }

  lemma NameKept(f: File)
    requires |f.name| < NAMSIZ
    ensures At(Header(f), 0, f.name + [0])
  {
    var h := Overlay(Numbers(f), 0, f.name + [0]);
    OverlayAt(Numbers(f), 0, f.name + [0], f.name + [0]);
    OverlayKeeps(h, CHKSUM, Repeat(8, SP), 0, f.name + [0]);
    ChecksumText(f);
    OverlayKeeps(Unsummed(f), CHKSUM, Print(6, Sum(Unsummed(f))) + [0], 0, f.name + [0]);
  }

  /** Blanking the checksum of a finished header gives what was summed. */
  lemma BlankAgain(f: File)
    ensures Blank(Header(f)) == Unsummed(f)
  {
    ChecksumText(f);
    var h, r := Unsummed(f), Blank(Header(f));
    forall i | 0 <= i < TBLOCK ensures r[i] == h[i] {
    }
  }

  /** The number that starts at a place in a block. */
  function NumberAt(h: seq<byte>, off: nat): nat {
    if off <= |h| then Scan(h[off..]) else 0
  }

  lemma ScanText(h: seq<byte>, a: nat, w: nat, v: nat)
    requires At(h, a, Text(w, v))
    ensures NumberAt(h, a) == v
  {
    var n := |Print(w, v)|;
    var rest := h[a + n..];
    assert h[a..a + n + 1] == Print(w, v) + [SP];
    assert h[a..] == h[a..a + n + 1] + h[a + n + 1..];
    assert h[a..] == Print(w, v) + ([SP] + h[a + n + 1..]);
    ScanOfPrint(w, v, [SP] + h[a + n + 1..]);
  }

  /** Everything that reading a header finds: what was put there, and a checksum that
      agrees. */
  lemma HeaderRoundTrip(f: File)
    requires Regular(f) && |f.name| < NAMSIZ
    ensures var h := Header(f);
            && CString(h) == f.name && NumberAt(h, MODE) == f.mode && NumberAt(h, UID) == f.uid
            && NumberAt(h, SIZE) == |f.content| && NumberAt(h, MTIME) == f.mtime
            && NumberAt(h, CHKSUM) == Sum(Blank(h)) && h[LINKFLAG] == 0 && h[0] != 0
  {
    var h := Header(f);
    SizesOfTexts(f);
    NumbersStand(f);
    NumberKept(f, MODE, Text(6, f.mode));
    NumberKept(f, UID, Text(6, f.uid));
    NumberKept(f, SIZE, Text(11, |f.content|));
    NumberKept(f, MTIME, Text(11, f.mtime));
    ScanText(h, MODE, 6, f.mode);
    ScanText(h, UID, 6, f.uid);
    ScanText(h, SIZE, 11, |f.content|);
    ScanText(h, MTIME, 11, f.mtime);
    NameFound(f);
    ChecksumFound(f);
    LinkFlagClear(f);
  }

  lemma NameFound(f: File)
    requires Regular(f) && |f.name| < NAMSIZ
    ensures CString(Header(f)) == f.name && Header(f)[0] != 0
  {
    var h, n := Header(f), |f.name| + 1;
    NameKept(f);
    assert h[..n] == f.name + [0] && h == h[..n] + h[n..];
    CStringOf(f.name, h[n..]);
    assert h[0] == h[..n][0] == f.name[0];
  }

  lemma NumberBehind(h: seq<byte>, a: nat, n: nat, v: nat)
    requires a + |Print(n, v)| + 1 <= |h| && h[a..a + |Print(n, v)| + 1] == Print(n, v) + [0]
    ensures NumberAt(h, a) == v
  {
    var t, end := Print(n, v), a + |Print(n, v)| + 1;
    assert h[a..] == h[a..end] + h[end..];
    Assoc(t, [0], h[end..]);
    ScanOfPrint(n, v, [0] + h[end..]);
  }

  lemma ChecksumFound(f: File)
    ensures NumberAt(Header(f), CHKSUM) == Sum(Blank(Header(f)))
  {
    var h, u := Header(f), Unsummed(f);
    BlankAgain(f);
    ChecksumText(f);
    NumberBehind(h, CHKSUM, 6, Sum(u));
  }

  lemma LinkFlagClear(f: File)
    requires Regular(f) && |f.name| < NAMSIZ
    ensures Header(f)[LINKFLAG] == 0
  {
    var h := Overlay(Numbers(f), 0, f.name + [0]);
    NumbersEnd(f);
    OverlayKeeps(Numbers(f), 0, f.name + [0], LINKFLAG, [0]);
    OverlayKeeps(h, CHKSUM, Repeat(8, SP), LINKFLAG, [0]);
    ChecksumText(f);
    OverlayKeeps(Unsummed(f), CHKSUM, Print(6, Sum(Unsummed(f))) + [0], LINKFLAG, [0]);
    assert Header(f)[LINKFLAG..LINKFLAG + 1][0] == 0;
  }

  // ---------- where the fields stand ----------

  /** The number that octal digits stand for, highest digit first. */
  function OctalValue(t: seq<byte>): int {
    if t == [] then 0 else 8 * OctalValue(t[..|t| - 1]) + (t[|t| - 1] as int - 48)
  }

  ghost predicate Octal(t: seq<byte>) {
    t != [] && forall i :: 0 <= i < |t| ==> 48 <= t[i] <= 55
  }

  /** Blanks, then the octal digits of this number. */
  ghost predicate PaddedOctal(t: seq<byte>, k: nat, v: nat) {
    k <= |t| && (forall i :: 0 <= i < k ==> t[i] == 32) && Octal(t[k..]) && OctalValue(t[k..]) == v
  }

  ghost predicate OctalText(t: seq<byte>, v: nat) {
    exists k: nat {:trigger PaddedOctal(t, k, v)} :: PaddedOctal(t, k, v)
  }

  /** A field of n bytes that starts at byte a holds a number and a blank behind it. */
  ghost predicate Field(h: seq<byte>, a: nat, n: nat, v: nat) {
    exists e: nat {:trigger h[e]} :: a < e < a + n && e < |h| && h[e] == 32 && OctalText(h[a..e], v)
  }

  /** A header block, byte by byte: the name from 0 on, mode, owner, group, size and time
      at 100, 108, 116, 124 and 136, the checksum at 148, and the link flag at 156. */
  ghost predicate HeaderOnTape(h: seq<byte>, f: File) {
    && |h| == 512 && At(h, 0, f.name + [0])
    && Field(h, 100, 8, f.mode) && Field(h, 108, 8, f.uid) && Field(h, 116, 8, 0)
    && Field(h, 124, 12, |f.content|) && Field(h, 136, 12, f.mtime)
    && OctalText(h[148..154], Sum(h[..148]) + 8 * 32 + Sum(h[156..])) && h[154] == 0 && h[155] == 32
    && h[156] == 0
  }

  lemma {:induction false} DigitsValue(v: nat)
    ensures Octal(Digits(v)) && OctalValue(Digits(v)) == v
  {
    if v < 8 {
      assert Digits(v)[..0] == [];
    } else {
      var front := Digits(v / 8);
      DigitsValue(v / 8);
      assert (front + [ZERO + v % 8])[..|front|] == front;
    }
  }

  lemma PrintIsOctal(w: nat, v: nat)
    ensures OctalText(Print(w, v), v)
  {
    var ds := Digits(v);
    DigitsValue(v);
    var k: nat := if |ds| < w then w - |ds| else 0;
    assert Print(w, v)[k..] == ds;
    assert PaddedOctal(Print(w, v), k, v);
  }

  lemma FieldOfText(h: seq<byte>, a: nat, n: nat, w: nat, v: nat)
    requires At(h, a, Text(w, v)) && |Text(w, v)| <= n
    ensures Field(h, a, n, v)
  {
    var t, e := Print(w, v), a + |Print(w, v)|;
    assert h[a..e + 1] == t + [SP];
    assert h[a..e] == h[a..e + 1][..|t|] == t && h[e] == h[a..e + 1][|t|];
    PrintIsOctal(w, v);
    DigitsFound(w, v);
  }

  lemma DigitsFound(w: nat, v: nat)
    ensures Print(w, v) != []
  {
  }

  /** The group number is complete as well. */
  lemma GroupStands(f: File)
    requires Regular(f)
    ensures At(Numbers(f), GID, Text(6, 0))
  {
    SizesOfTexts(f);
    var h1 := Overlay(Repeat(TBLOCK, 0), MODE, Text(6, f.mode) + [0]);
    var h2 := Overlay(h1, UID, Text(6, f.uid) + [0]);
    var h3 := Overlay(h2, GID, Text(6, 0) + [0]);
    var h4 := Overlay(h3, SIZE, Text(11, |f.content|) + [0]);
    OverlayAt(h2, GID, Text(6, 0) + [0], Text(6, 0));
    OverlayKeeps(h3, SIZE, Text(11, |f.content|) + [0], GID, Text(6, 0));
    OverlayKeeps(h4, MTIME, Text(11, f.mtime) + [0], GID, Text(6, 0));
  }

  lemma NumberFields(f: File)
    requires Regular(f) && |f.name| < NAMSIZ
    ensures var h := Header(f);
            && Field(h, 100, 8, f.mode) && Field(h, 108, 8, f.uid) && Field(h, 116, 8, 0)
            && Field(h, 124, 12, |f.content|) && Field(h, 136, 12, f.mtime)
  {
    var h := Header(f);
    SizesOfTexts(f);
    NumbersStand(f);
    GroupStands(f);
    NumberKept(f, MODE, Text(6, f.mode));
    NumberKept(f, UID, Text(6, f.uid));
    NumberKept(f, GID, Text(6, 0));
    NumberKept(f, SIZE, Text(11, |f.content|));
    NumberKept(f, MTIME, Text(11, f.mtime));
    FieldOfText(h, 100, 8, 6, f.mode);
    FieldOfText(h, 108, 8, 6, f.uid);
    FieldOfText(h, 116, 8, 6, 0);
    FieldOfText(h, 124, 12, 11, |f.content|);
    FieldOfText(h, 136, 12, 11, f.mtime);
  }

  lemma {:induction false} SumAppend(s: seq<byte>, t: seq<byte>)
    ensures Sum(s + t) == Sum(s) + Sum(t)
  {
    if s == [] {
      assert s + t == t;
    } else {
      assert (s + t)[1..] == s[1..] + t;
      SumAppend(s[1..], t);
    }
  }

  lemma {:induction false} SumOfBlanks(n: nat)
    ensures Sum(Repeat(n, SP)) == n * 32
  {
    if n > 0 {
      assert Repeat(n, SP)[1..] == Repeat(n - 1, SP);
      SumOfBlanks(n - 1);
    }
  }

  /** The checksum counts its own field as eight blanks. */
  lemma SumParts(h: seq<byte>)
    requires |h| == 512
    ensures Sum(Blank(h)) == Sum(h[..148]) + 8 * 32 + Sum(h[156..])
  {
    assert Blank(h) == h[..148] + Repeat(8, SP) + h[156..];
    SumAppend(h[..148] + Repeat(8, SP), h[156..]);
    SumAppend(h[..148], Repeat(8, SP));
    SumOfBlanks(8);
  }

  lemma ChecksumField(f: File)
    ensures var h := Header(f);
            OctalText(h[148..154], Sum(h[..148]) + 8 * 32 + Sum(h[156..])) && h[154] == 0 && h[155] == 32
  {
    var h, u := Header(f), Unsummed(f);
    var t := Print(6, Sum(u));
    ChecksumText(f);
    BlankAgain(f);
    SumParts(h);
    PrintIsOctal(6, Sum(u));
    assert h[148..154] == t && h[154] == 0;
    assert h[155] == u[155] == 32;
  }

  /** Where everything in a header stands. */
  lemma HeaderLayout(f: File)
    requires Regular(f) && |f.name| < 100
    ensures HeaderOnTape(Header(f), f)
  {
    NameKept(f);
    NumberFields(f);
    ChecksumField(f);
    LinkFlagClear(f);
  }

  // ---------- what the checksum notices ----------

  lemma {:induction false} SumUpdate(s: seq<byte>, i: nat, c: byte)
    requires i < |s|
    ensures Sum(s[i := c]) == Sum(s) - s[i] as int + c as int
  {
    if i > 0 {
      assert s[i := c][1..] == s[1..][i - 1 := c];
      SumUpdate(s[1..], i - 1, c);
    } else {
      assert s[0 := c][1..] == s[1..];
    }
  }

  lemma BlankUpdate(h: seq<byte>, i: nat, c: byte)
    requires |h| == TBLOCK && i < TBLOCK && !(CHKSUM <= i < CHKSUM + 8)
    ensures Blank(h[i := c]) == Blank(h)[i := c] && Blank(h)[i] == h[i]
  {
  }

  /** A header in which one byte outside the checksum field was changed is refused. */
  lemma OneChangeIsNoticed(f: File, i: nat, c: byte)
    requires i < TBLOCK && !(CHKSUM <= i < CHKSUM + 8) && c != Header(f)[i]
    ensures var h := Header(f)[i := c]; NumberAt(h, CHKSUM) != Sum(Blank(h))
  {
    var h := Header(f);
    var k := h[i := c];
    BlankUpdate(h, i, c);
    SumUpdate(Blank(h), i, c);
    ChecksumFound(f);
    ChecksumSpan(f, k);
  }

  /** The checksum that is read depends only on the checksum field. */
  lemma ChecksumSpan(f: File, k: seq<byte>)
    requires |k| == TBLOCK && k[CHKSUM..CHKSUM + 8] == Header(f)[CHKSUM..CHKSUM + 8]
    ensures NumberAt(k, CHKSUM) == NumberAt(Header(f), CHKSUM)
  {
    var h, u := Header(f), Unsummed(f);
    var t := Print(6, Sum(u));
    ChecksumText(f);
    assert h[CHKSUM..CHKSUM + 7] == t + [0];
    assert k[CHKSUM..CHKSUM + 7] == k[CHKSUM..CHKSUM + 8][..7] == h[CHKSUM..CHKSUM + 8][..7] == h[CHKSUM..CHKSUM + 7];
    assert k[CHKSUM..] == k[CHKSUM..CHKSUM + 7] + k[CHKSUM + 7..];
    assert k[CHKSUM..] == t + ([0] + k[CHKSUM + 7..]);
    ScanOfPrint(6, Sum(u), [0] + k[CHKSUM + 7..]);
    ChecksumFound(f);
    BlankAgain(f);
  }
}
