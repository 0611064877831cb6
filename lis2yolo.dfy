/** The LIS-to-YOLO annotation converter. A LIS annotation file has one line
    per bounding box, `frame \t label \t (x,y,w,h) \t box id \t path`; the
    converter writes one YOLO line, `path xmin,ymin,xmax,ymax,id ...`, per run
    of consecutive records with the same frame index (line 1 never moves
    `last_index`), numbering the labels densely in the order they are first
    met and sharing that numbering across every annotation file of a
    dataset. */
module Lis2Yolo {
  import opened Common
  import opened Text

  /** The tuple `ast.literal_eval(arr[2])` unpacks into `xmin, ymin, w, h`. */
  datatype Box = Box(x: int, y: int, w: int, h: int)

  /** One YOLO box: the corners and the class id. */
  datatype Corners = Corners(xmin: int, ymin: int, xmax: int, ymax: int, id: nat)

  /** An annotation line after `line.strip().split('\t')`. */
  type Fields = seq<string>

  /** `ast.literal_eval` of the points field unpacked into four integers;
      `None` when the text is not such a tuple (a `ValueError`). */
  type Eval = string -> Option<Box>

  /** The lines that carry a box: the frame field is all digits. */
  predicate IsRecord(arr: Fields)
  {
    |arr| > 0 && IsDigits(arr[0])
  }

  /** Negative `xmin` and `ymin` become 0 before the far corner is computed,
      so the box keeps its width and height. */
  function Clamp(b: Box, id: nat): (c: Corners)
    ensures c.xmin >= 0 && c.ymin >= 0
    ensures b.x >= 0 ==> c.xmin == b.x
    ensures b.x < 0 ==> c.xmin == 0
    ensures b.y >= 0 ==> c.ymin == b.y
    ensures b.y < 0 ==> c.ymin == 0
    ensures c.xmax - c.xmin == b.w && c.ymax - c.ymin == b.h
    ensures c.id == id
  {
    var xmin := if b.x < 0 then 0 else b.x;
    var ymin := if b.y < 0 then 0 else b.y;
    Corners(xmin, ymin, xmin + b.w, ymin + b.h, id)
  }

  /** `','.join(fs)`. */
  function Commas(fs: seq<string>): string
  {
    if fs == [] then ""
    else if |fs| == 1 then fs[0]
    else fs[0] + "," + Commas(fs[1..])
  }

  function Numbers(c: Corners): seq<string>
  {
    [IntToString(c.xmin), IntToString(c.ymin), IntToString(c.xmax), IntToString(c.ymax), IntToString(c.id)]
  }

  /** `' %d,%d,%d,%d,%d' % (xmin, ymin, xmax, ymax, class_id)`. */
  function Position(c: Corners): string
  {
    " " + Commas(Numbers(c))
  }

  /** `s.split(c)`. */
  function SplitOn(s: string, c: char): (parts: seq<string>)
    ensures |parts| >= 1
  {
    if s == [] then [""]
    else
      var rest := SplitOn(s[1..], c);
      if s[0] == c then [""] + rest else [[s[0]] + rest[0]] + rest[1..]
  }

  /** `int(s)` on an optionally signed string of decimal digits. */
  function ParseInt(s: string): Option<int>
  {
    if s != [] && s[0] == '-' && IsDigits(s[1..]) then var v: int := DigitsValue(s[1..]); Some(-v)
    else if IsDigits(s) then Some(DigitsValue(s))
    else None
  }

  /** How a reader of the YOLO format takes one box back: five
      comma-separated integers, the last one a class id. */
  function ParseBox(t: string): Option<Corners>
  {
    var f := SplitOn(t, ',');
    if |f| != 5 then None
    else match (ParseInt(f[0]), ParseInt(f[1]), ParseInt(f[2]), ParseInt(f[3]), ParseInt(f[4]))
      case (Some(a), Some(b), Some(c), Some(d), Some(e)) =>
        if e < 0 then None else Some(Corners(a, b, c, d, e))
      case _ => None
  }

  function ParseAll(parts: seq<string>): Option<seq<Corners>>
  {
    if parts == [] then Some([])
    else match ParseAll(parts[..|parts| - 1])
      case None => None
      case Some(cs) =>
        match ParseBox(parts[|parts| - 1])
        case None => None
        case Some(c) => Some(cs + [c])
  }

  /** The boxes of the text a frame's line holds after its path: one box
      after each space. */
  function Boxes(positions: string): Option<seq<Corners>>
  {
    var parts := SplitOn(positions, ' ');
    if parts[0] != "" then None else ParseAll(parts[1..])
  }

  lemma {:induction false} SplitOnPlain(a: string, c: char)
    requires c !in a
    ensures SplitOn(a, c) == [a]
  {
    if a != [] {
      SplitOnPlain(a[1..], c);
      assert [a[0]] + a[1..] == a;
    }
  }

  lemma {:induction false} SplitOnFirst(a: string, b: string, c: char)
    requires c !in a
    ensures SplitOn(a + [c] + b, c) == [a] + SplitOn(b, c)
  {
    var s := a + [c] + b;
    if a == [] {
      assert s[0] == c && s[1..] == b;
    } else {
      assert s[0] == a[0] && s[1..] == a[1..] + [c] + b;
      SplitOnFirst(a[1..], b, c);
      assert [a[0]] + a[1..] == a;
    }
  }

  lemma {:induction false} DigitsValueOfNat(n: nat)
    ensures DigitsValue(NatToString(n)) == n
  {
    if n >= 10 {
      DigitsValueOfNat(n / 10);
      var s := NatToString(n);
      assert s[..|s| - 1] == NatToString(n / 10);
    }
  }

  lemma ParseIntOfInt(n: int)
    ensures ParseInt(IntToString(n)) == Some(n)
  {
    if n < 0 {
      ParseNegative(n);
    } else {
      DigitsValueOfNat(n);
      assert IsDigit(NatToString(n)[0]);
    }
  }

  lemma ParseNegative(n: int)
    requires n < 0
    ensures ParseInt(IntToString(n)) == Some(n)
  {
    var t := NatToString(-n);
    var s := "-" + t;
    assert IntToString(n) == s;
    assert s[0] == '-' && s[1..] == t;
    assert IsDigits(t);
    DigitsValueOfNat(-n);
  }

  /** Joining fields that hold no comma, then splitting at the commas, gives
      the fields back. */
  lemma {:induction false} SplitCommas(fs: seq<string>)
    requires fs != [] && forall k :: 0 <= k < |fs| ==> ',' !in fs[k]
    ensures SplitOn(Commas(fs), ',') == fs
  {
    if |fs| == 1 {
      SplitOnPlain(fs[0], ',');
    } else {
      SplitCommas(fs[1..]);
      SplitOnFirst(fs[0], Commas(fs[1..]), ',');
      assert fs == [fs[0]] + fs[1..];
    }
  }

  /** A box's five numbers read back as the box. */
  lemma BoxRoundTrip(c: Corners)
    ensures ParseBox(Commas(Numbers(c))) == Some(c)
  {
    SplitCommas(Numbers(c));
    ParseIntOfInt(c.xmin);
    ParseIntOfInt(c.ymin);
    ParseIntOfInt(c.xmax);
    ParseIntOfInt(c.ymax);
    ParseIntOfInt(c.id);
  }

  lemma {:induction false} SplitOnConcat(a: string, b: string, c: char)
    ensures SplitOn(a + [c] + b, c) == SplitOn(a, c) + SplitOn(b, c)
  {
    var s := a + [c] + b;
    if a == [] {
      assert s[0] == c && s[1..] == b;
    } else {
      assert s[0] == a[0] && s[1..] == a[1..] + [c] + b;
      SplitOnConcat(a[1..], b, c);
    }
  }

  lemma {:induction false} CommasFree(fs: seq<string>, c: char)
    requires c != ',' && forall k :: 0 <= k < |fs| ==> c !in fs[k]
    ensures c !in Commas(fs)
  {
    if |fs| > 1 {
      CommasFree(fs[1..], c);
    }
  }

  /** Appending a record's text to `positions` appends its box to the boxes
      the text holds. */
  lemma BoxesSnoc(t: string, c: Corners)
    requires Boxes(t).Some?
    ensures Boxes(t + Position(c)) == Some(Boxes(t).value + [c])
  {
    var cm := Commas(Numbers(c));
    CommasFree(Numbers(c), ' ');
    assert t + Position(c) == t + [' '] + cm;
    SplitOnConcat(t, cm, ' ');
    SplitOnPlain(cm, ' ');
    var before := SplitOn(t, ' ');
    var parts := before + [cm];
    assert parts[0] == before[0];
    assert parts[1..] == before[1..] + [cm];
    assert (before[1..] + [cm])[..|before| - 1] == before[1..];
    BoxRoundTrip(c);
  }

  /** `if not dclasses.has_key(label): dclasses[label] = len(dclasses)`. */
  function Register(classes: map<string, nat>, name: string): (m: map<string, nat>)
    ensures name in m && m.Keys == classes.Keys + {name}
    ensures forall l :: l in classes ==> m[l] == classes[l]
    ensures name !in classes ==> m[name] == |classes|
  {
    if name in classes then classes else classes[name := |classes|]
  }

  /** The ids of `n` labels are `0 .. n-1`, one label each. */
  ghost predicate Dense(classes: map<string, nat>)
  {
    && (forall l :: l in classes ==> classes[l] < |classes|)
    && (forall a, b :: a in classes && b in classes && classes[a] == classes[b] ==> a == b)
  }

  /** Every label keeps the id it had. */
  ghost predicate Extends(before: map<string, nat>, after: map<string, nat>)
  {
    forall l :: l in before ==> l in after && after[l] == before[l]
  }

  lemma RegisterDense(classes: map<string, nat>, name: string)
    requires Dense(classes)
    ensures Dense(Register(classes, name))
  {
    if name !in classes {
      var m := Register(classes, name);
      assert |m| == |classes| + 1;
    }
  }

  /** The local variables of `change_annotation` (`last_index`, `positions`,
      `path`, which is unbound until the first record) and the two objects
      that outlive the call: the class dictionary and the lines written to the
      annotation file (each without its newline). */
  datatype Scan = Scan(lastIndex: nat, positions: string, path: Option<string>,
                       classes: map<string, nat>, written: seq<string>)

  /** A scan and the exception that stopped it, if any. */
  datatype Progress = Progress(scan: Scan, error: Option<Error>)

  /** The body of the loop for line number `i`. */
  function Step(s: Scan, i: nat, arr: Fields, eval: Eval): (p: Progress)
  {
    if !IsRecord(arr) then Progress(s, None)
    else
      var index := DigitsValue(arr[0]);
      var flush := index != s.lastIndex && i != 1;
      if flush && s.path.None? then Progress(s, Some(NameError))
      else
        var s1 := if flush then Flush(s, index) else s;
        if |arr| < 5 then Progress(s1, Some(IndexError))
        else Record(s1.(path := Some(arr[4])), arr[1], eval(arr[2]))
  }

  /** `fout.write('%s%s\n' % (path, positions))`, then the reset of
      `positions` and `last_index`. */
  function Flush(s: Scan, index: nat): Scan
    requires s.path.Some?
  {
    s.(written := s.written + [s.path.value + s.positions], positions := "", lastIndex := index)
  }

  /** The rest of a record: the box, the label's id and the position. */
  function Record(s: Scan, name: string, box: Option<Box>): Progress
  {
    match box
    case None => Progress(s, Some(ValueError))
    case Some(b) =>
      var classes := Register(s.classes, name);
      Progress(s.(classes := classes, positions := s.positions + Position(Clamp(b, classes[name]))), None)
  }

  /** The loop over the first `n` lines; an exception ends it. */
  function ScanPrefix(start: Scan, lines: seq<Fields>, eval: Eval, n: nat): Progress
    requires n <= |lines|
  {
    if n == 0 then Progress(start, None)
    else
      var p := ScanPrefix(start, lines, eval, n - 1);
      if p.error.Some? then p else Step(p.scan, n - 1, lines[n - 1], eval)
  }

  function Start(classes: map<string, nat>, written: seq<string>): Scan
  {
    Scan(0, "", None, classes, written)
  }

  /** `change_annotation`: the loop, then the last frame's line, which needs
      `path` to be bound. */
  function Annotate(classes: map<string, nat>, written: seq<string>, lines: seq<Fields>, eval: Eval): Progress
  {
    var p := ScanPrefix(Start(classes, written), lines, eval, |lines|);
    if p.error.Some? then p
    else if p.scan.path.None? then Progress(p.scan, Some(NameError))
    else Progress(p.scan.(written := p.scan.written + [p.scan.path.value + p.scan.positions]), None)
  }

  /** The loop of `main` over the first `n` annotation files. */
  function ConvertPrefix(classes: map<string, nat>, written: seq<string>, files: seq<seq<Fields>>, eval: Eval, n: nat): Progress
    requires n <= |files|
  {
    if n == 0 then Progress(Start(classes, written), None)
    else
      var p := ConvertPrefix(classes, written, files, eval, n - 1);
      if p.error.Some? then p else Annotate(p.scan.classes, p.scan.written, files[n - 1], eval)
  }

  lemma {:induction false} ScanStops(start: Scan, lines: seq<Fields>, eval: Eval, n: nat, m: nat)
    requires n <= m <= |lines| && ScanPrefix(start, lines, eval, n).error.Some?
    ensures ScanPrefix(start, lines, eval, m) == ScanPrefix(start, lines, eval, n)
    decreases m
  {
    if m > n {
      ScanStops(start, lines, eval, n, m - 1);
    }
  }

  lemma {:induction false} ConvertStops(classes: map<string, nat>, written: seq<string>, files: seq<seq<Fields>>, eval: Eval, n: nat, m: nat)
    requires n <= m <= |files| && ConvertPrefix(classes, written, files, eval, n).error.Some?
    ensures ConvertPrefix(classes, written, files, eval, m) == ConvertPrefix(classes, written, files, eval, n)
    decreases m
  {
    if m > n {
      ConvertStops(classes, written, files, eval, n, m - 1);
    }
  }

  /** Between records, `positions` holds the boxes of the current frame, at
      least one once a record has bound `path`. */
  ghost predicate WellFormed(s: Scan)
  {
    Boxes(s.positions).Some? && (s.path.Some? ==> |Boxes(s.positions).value| >= 1)
  }

  /** One record: the accumulated boxes are written under the previous
      record's path when the frame index changes (except on line 1), and the
      record's clamped box, with the id of its label, joins the current frame. */
  lemma StepRecord(s: Scan, i: nat, arr: Fields, eval: Eval)
    requires WellFormed(s) && IsRecord(arr) && Step(s, i, arr, eval).error.None?
    ensures |arr| >= 5 && eval(arr[2]).Some?
    ensures var p := Step(s, i, arr, eval).scan;
            var index := DigitsValue(arr[0]);
            var flush := index != s.lastIndex && i != 1;
            && WellFormed(p)
            && p.path == Some(arr[4])
            && p.classes == Register(s.classes, arr[1])
            && p.lastIndex == (if flush then index else s.lastIndex)
            && p.written == (if flush then s.written + [s.path.value + s.positions] else s.written)
            && (flush ==> |Boxes(s.positions).value| >= 1)
            && Boxes(p.positions)
               == Some((if flush then [] else Boxes(s.positions).value) + [Clamp(eval(arr[2]).value, p.classes[arr[1]])])
  {
    var index := DigitsValue(arr[0]);
    var flush := index != s.lastIndex && i != 1;
    var base := if flush then "" else s.positions;
    assert Boxes(base).Some? && Boxes(base).value == if flush then [] else Boxes(s.positions).value;
    var c := Clamp(eval(arr[2]).value, Register(s.classes, arr[1])[arr[1]]);
    BoxesSnoc(base, c);
  }

  /** A line registers its label exactly when it is a record that goes
      through; otherwise the dictionary is left alone. */
  lemma StepClasses(s: Scan, i: nat, arr: Fields, eval: Eval)
    ensures var p := Step(s, i, arr, eval);
            p.scan.classes == if IsRecord(arr) && p.error.None? then Register(s.classes, arr[1]) else s.classes
  {
    if IsRecord(arr) {
      var index := DigitsValue(arr[0]);
      var flush := index != s.lastIndex && i != 1;
      if !(flush && s.path.None?) {
        var s1 := if flush then Flush(s, index) else s;
        assert s1.classes == s.classes;
        if |arr| >= 5 {
          assert Step(s, i, arr, eval) == Record(s1.(path := Some(arr[4])), arr[1], eval(arr[2]));
        }
      }
    }
  }

  /** Nothing is lost: the ids given out stay, lines are only appended, and
      dense ids stay dense. */
  ghost predicate Grows(a: Scan, b: Scan)
  {
    && Extends(a.classes, b.classes)
    && a.written <= b.written
    && (Dense(a.classes) ==> Dense(b.classes))
  }

  lemma GrowsTransitive(a: Scan, b: Scan, c: Scan)
    requires Grows(a, b) && Grows(b, c)
    ensures Grows(a, c)
  {
  }

  lemma StepGrows(s: Scan, i: nat, arr: Fields, eval: Eval)
    ensures Grows(s, Step(s, i, arr, eval).scan)
  {
    var p := Step(s, i, arr, eval);
    StepClasses(s, i, arr, eval);
    if IsRecord(arr) && p.error.None? && Dense(s.classes) {
      RegisterDense(s.classes, arr[1]);
    }
    if IsRecord(arr) && !(DigitsValue(arr[0]) != s.lastIndex && i != 1 && s.path.None?) && |arr| >= 5 {
      var s1 := if DigitsValue(arr[0]) != s.lastIndex && i != 1 then Flush(s, DigitsValue(arr[0])) else s;
      assert p == Record(s1.(path := Some(arr[4])), arr[1], eval(arr[2]));
    }
  }
  lemma {:induction false} ScanGrows(start: Scan, lines: seq<Fields>, eval: Eval, n: nat)
    requires n <= |lines|
    ensures Grows(start, ScanPrefix(start, lines, eval, n).scan)
  {
    if n > 0 {
      ScanGrows(start, lines, eval, n - 1);
      var p := ScanPrefix(start, lines, eval, n - 1);
      if p.error.None? {
        StepGrows(p.scan, n - 1, lines[n - 1], eval);
        GrowsTransitive(start, p.scan, ScanPrefix(start, lines, eval, n).scan);
      }
    }
  }

  lemma {:induction false} ScanWellFormed(start: Scan, lines: seq<Fields>, eval: Eval, n: nat)
    requires n <= |lines| && WellFormed(start)
    requires ScanPrefix(start, lines, eval, n).error.None?
    ensures WellFormed(ScanPrefix(start, lines, eval, n).scan)
  {
    if n > 0 {
      var p := ScanPrefix(start, lines, eval, n - 1);
      ScanWellFormed(start, lines, eval, n - 1);
      if IsRecord(lines[n - 1]) {
        StepRecord(p.scan, n - 1, lines[n - 1], eval);
      }
    }
  }

  /** `change_annotation` only adds to the class dictionary and to the
      output, and keeps the ids dense; this holds even when it raises. */
  lemma AnnotateGrows(classes: map<string, nat>, written: seq<string>, lines: seq<Fields>, eval: Eval)
    ensures Grows(Start(classes, written), Annotate(classes, written, lines, eval).scan)
  {
    ScanGrows(Start(classes, written), lines, eval, |lines|);
  }

  /** After the loop the current frame is always written, and it holds at
      least one box; without any record `path` is unbound. */
  lemma AnnotateLastLine(classes: map<string, nat>, written: seq<string>, lines: seq<Fields>, eval: Eval)
    ensures var p := ScanPrefix(Start(classes, written), lines, eval, |lines|);
            var r := Annotate(classes, written, lines, eval);
            p.error.None? ==>
              && (p.scan.path.None? <==> r.error == Some(NameError))
              && (p.scan.path.Some? ==>
                    && r.error.None?
                    && r.scan.written == p.scan.written + [p.scan.path.value + p.scan.positions]
                    && Boxes(p.scan.positions).Some? && |Boxes(p.scan.positions).value| >= 1)
  {
    var p := ScanPrefix(Start(classes, written), lines, eval, |lines|);
    if p.error.None? {
      assert Boxes("") == Some([]);
      ScanWellFormed(Start(classes, written), lines, eval, |lines|);
    }
  }

  lemma {:induction false} ConvertGrows(classes: map<string, nat>, written: seq<string>, files: seq<seq<Fields>>, eval: Eval, n: nat)
    requires n <= |files|
    ensures Grows(Start(classes, written), ConvertPrefix(classes, written, files, eval, n).scan)
  {
    if n > 0 {
      ConvertGrows(classes, written, files, eval, n - 1);
      var p := ConvertPrefix(classes, written, files, eval, n - 1);
      if p.error.None? {
        var q := Annotate(p.scan.classes, p.scan.written, files[n - 1], eval);
        assert ConvertPrefix(classes, written, files, eval, n) == q;
        AnnotateGrows(p.scan.classes, p.scan.written, files[n - 1], eval);
        assert Grows(Start(classes, written), Start(p.scan.classes, p.scan.written));
        GrowsTransitive(Start(classes, written), Start(p.scan.classes, p.scan.written), q.scan);
      }
    }
  }

  /** The labels of the records among the first `n` lines, in order. */
  function Labels(lines: seq<Fields>, n: nat): seq<string>
    requires n <= |lines|
  {
    if n == 0 then []
    else
      var arr := lines[n - 1];
      Labels(lines, n - 1) + if IsRecord(arr) && |arr| >= 2 then [arr[1]] else []
  }

  /** The labels of the records of the first `n` files, in order. */
  function FileLabels(files: seq<seq<Fields>>, n: nat): seq<string>
    requires n <= |files|
  {
    if n == 0 then [] else FileLabels(files, n - 1) + Labels(files[n - 1], |files[n - 1]|)
  }

  /** The class dictionary after registering `names` one after the other. */
  function Registered(classes: map<string, nat>, names: seq<string>): map<string, nat>
  {
    if names == [] then classes
    else Register(Registered(classes, names[..|names| - 1]), names[|names| - 1])
  }

  lemma RegisteredSnoc(classes: map<string, nat>, names: seq<string>, name: string)
    ensures Registered(classes, names + [name]) == Register(Registered(classes, names), name)
  {
    assert (names + [name])[..|names|] == names;
  }

  lemma {:induction false} RegisteredConcat(classes: map<string, nat>, a: seq<string>, b: seq<string>)
    ensures Registered(classes, a + b) == Registered(Registered(classes, a), b)
  {
    if b == [] {
      assert a + b == a;
    } else {
      var front, last := b[..|b| - 1], b[|b| - 1];
      assert b == front + [last];
      assert a + b == (a + front) + [last];
      RegisteredConcat(classes, a, front);
      RegisteredSnoc(classes, a + front, last);
      RegisteredSnoc(Registered(classes, a), front, last);
    }
  }

  lemma {:induction false} ScanIds(start: Scan, lines: seq<Fields>, eval: Eval, n: nat)
    requires n <= |lines| && ScanPrefix(start, lines, eval, n).error.None?
    ensures ScanPrefix(start, lines, eval, n).scan.classes == Registered(start.classes, Labels(lines, n))
  {
    if n > 0 {
      var p := ScanPrefix(start, lines, eval, n - 1);
      ScanIds(start, lines, eval, n - 1);
      var arr := lines[n - 1];
      StepClasses(p.scan, n - 1, arr, eval);
      if IsRecord(arr) {
        RegisteredSnoc(start.classes, Labels(lines, n - 1), arr[1]);
      } else {
        assert Labels(lines, n) == Labels(lines, n - 1);
      }
    }
  }

  /** A file that converts without an exception numbers its labels one after
      the other, starting from the dictionary it was given. */
  lemma AnnotateIds(classes: map<string, nat>, written: seq<string>, lines: seq<Fields>, eval: Eval)
    requires Annotate(classes, written, lines, eval).error.None?
    ensures Annotate(classes, written, lines, eval).scan.classes == Registered(classes, Labels(lines, |lines|))
  {
    ScanIds(Start(classes, written), lines, eval, |lines|);
  }

  /** The dictionary carries over from file to file: the files number their
      labels as one long sequence of labels would. */
  lemma {:induction false} ConvertIds(classes: map<string, nat>, written: seq<string>, files: seq<seq<Fields>>, eval: Eval, n: nat)
    requires n <= |files| && ConvertPrefix(classes, written, files, eval, n).error.None?
    ensures ConvertPrefix(classes, written, files, eval, n).scan.classes == Registered(classes, FileLabels(files, n))
  {
    if n > 0 {
      var p := ConvertPrefix(classes, written, files, eval, n - 1);
      ConvertIds(classes, written, files, eval, n - 1);
      AnnotateIds(p.scan.classes, p.scan.written, files[n - 1], eval);
      RegisteredConcat(classes, FileLabels(files, n - 1), Labels(files[n - 1], |files[n - 1]|));
    }
  }

  function Seen(names: seq<string>): set<string>
  {
    set l | l in names
  }

  /** Starting from an empty dictionary, a label's id is the number of
      distinct labels met before its first occurrence. */
  lemma {:induction false} FirstSeenIds(names: seq<string>)
    ensures Registered(map[], names).Keys == Seen(names)
    ensures forall j :: 0 <= j < |names| && names[j] !in names[..j] ==>
              Registered(map[], names)[names[j]] == |Seen(names[..j])|
  {
    if names != [] {
      var n := |names| - 1;
      var front, last := names[..n], names[n];
      assert names == front + [last];
      FirstSeenIds(front);
      RegisteredSnoc(map[], front, last);
      var m := Registered(map[], front);
      assert Seen(names) == Seen(front) + {last};
      forall j | 0 <= j < |names| && names[j] !in names[..j]
        ensures Registered(map[], names)[names[j]] == |Seen(names[..j])|
      {
        if j < n {
          assert names[..j] == front[..j] && names[j] == front[j];
        } else {
          assert names[..j] == front;
          assert |m| == |m.Keys|;
        }
      }
    }
  }

  lemma {:induction false} DropBefore(start: Scan, lines: seq<Fields>, eval: Eval, j: nat, n: nat)
    requires j < |lines| && n <= j
    ensures ScanPrefix(start, lines, eval, n) == ScanPrefix(start, lines[..j] + lines[j + 1..], eval, n)
  {
    if n > 0 {
      DropBefore(start, lines, eval, j, n - 1);
      assert (lines[..j] + lines[j + 1..])[n - 1] == lines[n - 1];
    }
  }

  lemma {:induction false} DropAfter(start: Scan, lines: seq<Fields>, eval: Eval, j: nat, m: nat)
    requires 2 <= j < m <= |lines| && !IsRecord(lines[j])
    ensures ScanPrefix(start, lines, eval, m) == ScanPrefix(start, lines[..j] + lines[j + 1..], eval, m - 1)
  {
    var dropped := lines[..j] + lines[j + 1..];
    if m == j + 1 {
      DropBefore(start, lines, eval, j, j);
    } else {
      DropAfter(start, lines, eval, j, m - 1);
      assert dropped[m - 2] == lines[m - 1];
      var p := ScanPrefix(start, lines, eval, m - 1);
      assert Step(p.scan, m - 1, lines[m - 1], eval) == Step(p.scan, m - 2, lines[m - 1], eval);
    }
  }

  /** A line whose frame field is not all digits contributes nothing: taking
      it out of the file changes nothing, unless it is the first or second
      line, whose removal moves the records after it onto line 1. */
  lemma SkippedLine(classes: map<string, nat>, written: seq<string>, lines: seq<Fields>, eval: Eval, j: nat)
    requires 2 <= j < |lines| && !IsRecord(lines[j])
    ensures Annotate(classes, written, lines, eval) == Annotate(classes, written, lines[..j] + lines[j + 1..], eval)
  {
    DropAfter(Start(classes, written), lines, eval, j, |lines|);
  }

  /** A file without records leaves the dictionary and the output as they
      were and ends in a `NameError`: `path` was never bound. */
  lemma {:induction false} NoRecords(classes: map<string, nat>, written: seq<string>, lines: seq<Fields>, eval: Eval, n: nat)
    requires n <= |lines| && forall k :: 0 <= k < |lines| ==> !IsRecord(lines[k])
    ensures ScanPrefix(Start(classes, written), lines, eval, n) == Progress(Start(classes, written), None)
    ensures n == |lines| ==>
              Annotate(classes, written, lines, eval) == Progress(Start(classes, written), Some(NameError))
  {
    if n > 0 {
      NoRecords(classes, written, lines, eval, n - 1);
    }
  }

  /** Without a header line, a first record whose frame is not 0 asks for
      the previous frame's `path` before any was read. */
  lemma NoHeader(classes: map<string, nat>, written: seq<string>, lines: seq<Fields>, eval: Eval)
    requires lines != [] && IsRecord(lines[0]) && DigitsValue(lines[0][0]) != 0
    ensures Annotate(classes, written, lines, eval) == Progress(Start(classes, written), Some(NameError))
  {
    ScanStops(Start(classes, written), lines, eval, 1, |lines|);
  }

  /** Line 1 never moves `last_index` off 0: when the first frame (read on
      line 1, after a header) has two boxes, the second box starts a new
      output line, and the frame is written twice. */
  lemma FirstFrameSplit(classes: map<string, nat>, written: seq<string>, lines: seq<Fields>, eval: Eval)
    requires |lines| == 3 && !IsRecord(lines[0])
    requires IsRecord(lines[1]) && IsRecord(lines[2]) && lines[1][0] == lines[2][0] && DigitsValue(lines[1][0]) != 0
    requires |lines[1]| >= 5 && |lines[2]| >= 5 && eval(lines[1][2]).Some? && eval(lines[2][2]).Some?
    ensures var r := Annotate(classes, written, lines, eval);
            r.error.None? && |r.scan.written| == |written| + 2
            && r.scan.written[|written|]
               == lines[1][4] + Position(Clamp(eval(lines[1][2]).value, Register(classes, lines[1][1])[lines[1][1]]))
  {
    var start := Start(classes, written);
    assert ScanPrefix(start, lines, eval, 0) == Progress(start, None);
    var p1 := ScanPrefix(start, lines, eval, 1);
    assert p1 == Progress(start, None);
    var p2 := ScanPrefix(start, lines, eval, 2);
    assert p2.error.None? && p2.scan.lastIndex == 0 && p2.scan.written == written;
    var p3 := ScanPrefix(start, lines, eval, 3);
    assert p3.error.None? && p3.scan.written == written + [p2.scan.path.value + p2.scan.positions];
    assert p2.scan.positions == Position(Clamp(eval(lines[1][2]).value, p2.scan.classes[lines[1][1]]));
    assert p3.scan.classes == Register(p2.scan.classes, lines[2][1]);
  }

  /** A frame that comes back after another frame is written again: one line
      per run of consecutive records with the same frame index, not one per
      distinct frame. */
  lemma FrameReturns(classes: map<string, nat>, written: seq<string>, lines: seq<Fields>, eval: Eval)
    requires |lines| == 4 && !IsRecord(lines[0])
    requires IsRecord(lines[1]) && IsRecord(lines[2]) && IsRecord(lines[3])
    requires DigitsValue(lines[1][0]) == 1 && DigitsValue(lines[2][0]) == 2 && DigitsValue(lines[3][0]) == 1
    requires |lines[1]| >= 5 && |lines[2]| >= 5 && |lines[3]| >= 5
    requires eval(lines[1][2]).Some? && eval(lines[2][2]).Some? && eval(lines[3][2]).Some?
    ensures var r := Annotate(classes, written, lines, eval);
            r.error.None? && |r.scan.written| == |written| + 3
            && r.scan.written[|written|]
               == lines[1][4] + Position(Clamp(eval(lines[1][2]).value, Register(classes, lines[1][1])[lines[1][1]]))
  {
    var start := Start(classes, written);
    assert ScanPrefix(start, lines, eval, 0) == Progress(start, None);
    var p1 := ScanPrefix(start, lines, eval, 1);
    assert p1 == Progress(start, None);
    var p2 := ScanPrefix(start, lines, eval, 2);
    assert p2.error.None? && p2.scan.lastIndex == 0 && p2.scan.written == written;
    assert p2.scan.positions == Position(Clamp(eval(lines[1][2]).value, p2.scan.classes[lines[1][1]]));
    var p3 := ScanPrefix(start, lines, eval, 3);
    assert p3.error.None? && p3.scan.lastIndex == 2 && p3.scan.written == written + [p2.scan.path.value + p2.scan.positions];
    var p4 := ScanPrefix(start, lines, eval, 4);
    assert p4.error.None? && p4.scan.written == p3.scan.written + [p3.scan.path.value + p3.scan.positions];
  }

  /** `main`: the class dictionary it writes out holds exactly the labels
      of the dataset, with dense ids in the order the labels are first met
      across the files. */
  lemma MainIds(files: seq<seq<Fields>>, eval: Eval)
    requires ConvertPrefix(map[], [], files, eval, |files|).error.None?
    ensures var classes := ConvertPrefix(map[], [], files, eval, |files|).scan.classes;
            var names := FileLabels(files, |files|);
            && Dense(classes)
            && classes.Keys == Seen(names)
            && forall j :: 0 <= j < |names| && names[j] !in names[..j] ==> classes[names[j]] == |Seen(names[..j])|
  {
    ConvertIds(map[], [], files, eval, |files|);
    FirstSeenIds(FileLabels(files, |files|));
    ConvertGrows(map[], [], files, eval, |files|);
  }

  /** `sorted(dclasses.items(), key=lambda kv: kv[1])`, keys only: every
      label once, in ascending id order. */
  ghost predicate IsClassListing(classes: map<string, nat>, labels: seq<string>)
  {
    && NoDup(labels)
    && (forall l :: l in labels <==> l in classes)
    && (forall i, j :: 0 <= i < j < |labels| ==> classes[labels[i]] <= classes[labels[j]])
  }

  lemma {:induction false} HasTop(classes: map<string, nat>)
    requires classes != map[]
    ensures exists top :: top in classes && forall l :: l in classes ==> classes[l] <= classes[top]
    decreases |classes|
  {
    var x :| x in classes;
    var rest := classes - {x};
    assert rest.Keys == classes.Keys - {x};
    if rest.Keys == {} {
      assert classes.Keys == {x};
    } else {
      HasTop(rest);
      var y :| y in rest && forall l :: l in rest ==> rest[l] <= rest[y];
      var top := if classes[x] <= classes[y] then y else x;
      forall l | l in classes ensures classes[l] <= classes[top] {
        if l != x { assert l in rest.Keys && rest[l] == classes[l]; }
      }
      assert top in classes;
    }
  }

  /** Such a listing exists: the label with the largest id goes last. */
  ghost function ClassListing(classes: map<string, nat>): (labels: seq<string>)
    ensures IsClassListing(classes, labels)
    decreases |classes|
  {
    if classes == map[] then []
    else
      HasTop(classes);
      var top :| top in classes && forall l :: l in classes ==> classes[l] <= classes[top];
      var rest := classes - {top};
      assert rest.Keys == classes.Keys - {top};
      var r := ClassListing(rest);
      ListingSnoc(classes, top, r);
      r + [top]
  }

  lemma ListingSnoc(classes: map<string, nat>, top: string, r: seq<string>)
    requires top in classes && forall l :: l in classes ==> classes[l] <= classes[top]
    requires IsClassListing(classes - {top}, r)
    ensures IsClassListing(classes, r + [top])
  {
    var rest := classes - {top};
    assert rest.Keys == classes.Keys - {top};
    var t := r + [top];
    forall l | l in r ensures l in classes && l != top && classes[l] == rest[l] {
      assert l in rest.Keys;
    }
    forall i, j | 0 <= i < j < |t| ensures classes[t[i]] <= classes[t[j]] {
      assert t[i] == r[i] && t[i] in r;
      if j < |r| {
        assert t[j] == r[j] && t[j] in r;
      }
    }
    forall l | l in classes ensures l in t {
      if l != top { assert l in rest.Keys; }
    }
  }

  lemma {:induction false} NoDupCard(xs: seq<string>)
    requires NoDup(xs)
    ensures |Seen(xs)| == |xs|
  {
    if xs != [] {
      var n := |xs| - 1;
      NoDupCard(xs[..n]);
      assert xs == xs[..n] + [xs[n]];
      assert Seen(xs) == Seen(xs[..n]) + {xs[n]};
    }
  }

  lemma {:induction false} IncreasingBelowLength(ids: seq<int>)
    requires forall i, j :: 0 <= i < j < |ids| ==> ids[i] < ids[j]
    requires forall k :: 0 <= k < |ids| ==> 0 <= ids[k] < |ids|
    ensures forall k :: 0 <= k < |ids| ==> ids[k] == k
  {
    if ids != [] {
      var n := |ids| - 1;
      var front := ids[..n];
      forall k | 0 <= k < n ensures 0 <= front[k] < n {
        assert front[k] == ids[k] < ids[n];
      }
      IncreasingBelowLength(front);
      forall k | 0 <= k <= n ensures ids[k] == k {
        if k < n {
          assert ids[k] == front[k];
        } else if n > 0 {
          assert ids[n - 1] == front[n - 1];
        }
      }
    }
  }

  /** On dense ids the classes file lists the label with id 0, then the one
      with id 1, and so on: line `k` names the class YOLO reports as `k`. */
  lemma ClassFileById(classes: map<string, nat>, labels: seq<string>)
    requires Dense(classes) && IsClassListing(classes, labels)
    ensures |labels| == |classes|
    ensures forall k :: 0 <= k < |labels| ==> classes[labels[k]] == k
  {
    NoDupCard(labels);
    assert Seen(labels) == classes.Keys;
    var ids := seq(|labels|, k requires 0 <= k < |labels| => classes[labels[k]]);
    forall i, j | 0 <= i < j < |ids| ensures ids[i] < ids[j] {
      assert labels[i] != labels[j];
    }
    IncreasingBelowLength(ids);
    forall k | 0 <= k < |labels| ensures classes[labels[k]] == k {
      assert ids[k] == k;
    }
  }

  /** The class dictionary and the output file, as `main` shares them
      between the annotation files. */
  class Converter {
    var classes: map<string, nat>
    var written: seq<string>

    constructor ()
      ensures classes == map[] && written == []
    {
      classes := map[];
      written := [];
    }

    /** `change_annotation(fan, fout, dclasses)` over the lines of `fan`. */
    method ChangeAnnotation(lines: seq<Fields>, eval: Eval) returns (error: Option<Error>)
      modifies this
      ensures var p := Annotate(old(classes), old(written), lines, eval);
              classes == p.scan.classes && written == p.scan.written && error == p.error
    {
      ghost var start := Start(classes, written);
      var lastIndex: nat := 0;
      var positions := "";
      var path: Option<string> := None;
      for i := 0 to |lines|
        invariant ScanPrefix(start, lines, eval, i) == Progress(Scan(lastIndex, positions, path, classes, written), None)
      {
        var arr := lines[i];
        if |arr| > 0 && IsDigits(arr[0]) {
          var index := DigitsValue(arr[0]);
          if index != lastIndex && i != 1 {
            if path.None? {
              ScanStops(start, lines, eval, i + 1, |lines|);
              return Some(NameError);
            }
            written := written + [path.value + positions];
            positions := "";
            lastIndex := index;
          }
          if |arr| < 5 {
            ScanStops(start, lines, eval, i + 1, |lines|);
            return Some(IndexError);
          }
          path := Some(arr[4]);
          var b := eval(arr[2]);
          if b.None? {
            ScanStops(start, lines, eval, i + 1, |lines|);
            return Some(ValueError);
          }
          var name := arr[1];
          if name !in classes {
            classes := classes[name := |classes|];
          }
          var id := classes[name];
          positions := positions + Position(Clamp(b.value, id));
        }
      }
      if path.None? {
        return Some(NameError);
      }
      written := written + [path.value + positions];
      return None;
    }

    /** The loop of `main` over the annotation files, in the order the
        directory walk yields them. */
    method Convert(files: seq<seq<Fields>>, eval: Eval) returns (error: Option<Error>)
      modifies this
      ensures var p := ConvertPrefix(old(classes), old(written), files, eval, |files|);
              classes == p.scan.classes && written == p.scan.written && error == p.error
    {
      ghost var classes0, written0 := classes, written;
      for n := 0 to |files|
        invariant var p := ConvertPrefix(classes0, written0, files, eval, n);
                  p.error.None? && classes == p.scan.classes && written == p.scan.written
      {
        error := ChangeAnnotation(files[n], eval);
        if error.Some? {
          ConvertStops(classes0, written0, files, eval, n + 1, |files|);
          return;
        }
      }
      error := None;
    }
  }
}
