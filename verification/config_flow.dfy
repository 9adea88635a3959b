/** The allow-list text of custom_components/rebuli_rf_bridge/config_flow.py.

    Both the setup step and the options step turn the user's comma-separated
    text into a list with
        [s.strip().upper() for s in text.split(",") if s.strip()]
    and the options form shows the stored list back as `", ".join(ids)`.
    `ParseIds` and `JoinIds` are those two expressions; `strip` and `upper`
    are modelled on ASCII. */
module ConfigFlow {

  /** Python's `str.isspace` on ASCII: tab, line feed, vertical tab, form
      feed, carriage return, the four separator controls 0x1C..0x1F, space. */
  predicate IsSpace(c: char)
  {
    c == ' ' || 9 <= c as int <= 13 || 28 <= c as int <= 31
  }

  predicate IsLower(c: char)
  {
    'a' <= c <= 'z'
  }

  // ---------------------------------------------------------------------
  // strip and upper

  /** `str.upper` on one ASCII character. */
  function UpperChar(c: char): (u: char)
    ensures !IsLower(u)
    ensures IsLower(c) ==> u as int == c as int - 32
    ensures !IsLower(c) ==> u == c
  {
    if IsLower(c) then (c as int - 32) as char else c
  }

  /** `str.upper` on ASCII text: each character upper-cased in place. */
  function Upper(s: string): (u: string)
    ensures |u| == |s|
    ensures forall i :: 0 <= i < |s| ==> u[i] == UpperChar(s[i])
  {
    if |s| == 0 then "" else [UpperChar(s[0])] + Upper(s[1..])
  }

  /** No character is a lower-case letter. */
  predicate IsUpperCase(s: string)
  {
    forall i :: 0 <= i < |s| ==> !IsLower(s[i])
  }

  /** Text is upper-case exactly when `upper` leaves it alone. */
  lemma UpperFixpoint(s: string)
    ensures Upper(s) == s <==> IsUpperCase(s)
  {
    if Upper(s) == s {
      forall i | 0 <= i < |s| ensures !IsLower(s[i]) {
        assert Upper(s)[i] == UpperChar(s[i]);
      }
    }
  }

  /** Upper-casing keeps whitespace and commas where they were and leaves no
      lower-case letter behind. */
  lemma UpperFacts(s: string)
    ensures |Upper(s)| == |s|
    ensures IsUpperCase(Upper(s))
    ensures forall i :: 0 <= i < |s| ==> (IsSpace(Upper(s)[i]) <==> IsSpace(s[i]))
    ensures forall i :: 0 <= i < |s| ==> (Upper(s)[i] == ',' <==> s[i] == ',')
  {
  }

  predicate AllSpace(s: string)
  {
    forall i :: 0 <= i < |s| ==> IsSpace(s[i])
  }

  predicate IsStripped(s: string)
  {
    s == "" || (!IsSpace(s[0]) && !IsSpace(s[|s| - 1]))
  }

  /** Text is all whitespace exactly when both of its parts are. */
  lemma AllSpaceConcat(a: string, b: string)
    ensures AllSpace(a + b) <==> AllSpace(a) && AllSpace(b)
  {
    if AllSpace(a + b) {
      forall i | 0 <= i < |a| ensures IsSpace(a[i]) {
        assert a[i] == (a + b)[i];
      }
      forall i | 0 <= i < |b| ensures IsSpace(b[i]) {
        assert b[i] == (a + b)[|a| + i];
      }
    }
    if AllSpace(a) && AllSpace(b) {
      forall i | 0 <= i < |a + b| ensures IsSpace((a + b)[i]) {
        if i >= |a| {
          assert (a + b)[i] == b[i - |a|];
        }
      }
    }
  }

  /** `str.lstrip()`. */
  function TrimLeft(s: string): (r: string)
    ensures |r| <= |s|
  {
    if |s| > 0 && IsSpace(s[0]) then TrimLeft(s[1..]) else s
  }

  /** `lstrip` removes a whitespace prefix, only whitespace, and all of it. */
  lemma {:induction false} TrimLeftSpec(s: string)
    ensures var r := TrimLeft(s);
      r == s[|s| - |r|..] && AllSpace(s[..|s| - |r|]) && (r == "" || !IsSpace(r[0]))
    decreases |s|
  {
    if |s| > 0 && IsSpace(s[0]) {
      var t := s[1..];
      TrimLeftSpec(t);
      var r := TrimLeft(t);
      var k := |s| - |r|;
      assert t[|t| - |r|..] == s[k..];
      assert s[..k] == [s[0]] + t[..|t| - |r|];
      AllSpaceConcat([s[0]], t[..|t| - |r|]);
    }
  }

  /** `str.rstrip()`. */
  function TrimRight(s: string): (r: string)
    ensures |r| <= |s|
  {
    if |s| > 0 && IsSpace(s[|s| - 1]) then TrimRight(s[..|s| - 1]) else s
  }

  /** `rstrip` removes a whitespace suffix, only whitespace, and all of it. */
  lemma {:induction false} TrimRightSpec(s: string)
    ensures var r := TrimRight(s);
      r == s[..|r|] && AllSpace(s[|r|..]) && (r == "" || !IsSpace(r[|r| - 1]))
    decreases |s|
  {
    if |s| > 0 && IsSpace(s[|s| - 1]) {
      var t := s[..|s| - 1];
      TrimRightSpec(t);
      var r := TrimRight(t);
      assert t[..|r|] == s[..|r|];
      assert s[|r|..] == t[|r|..] + [s[|s| - 1]];
      AllSpaceConcat(t[|r|..], [s[|s| - 1]]);
    }
  }

  /** `str.strip()`. */
  function Strip(s: string): (r: string)
    ensures |r| <= |s|
  {
    TrimRight(TrimLeft(s))
  }

  /** What `strip` keeps is a slice of the text with only whitespace on
      either side of it, and the slice has no outer whitespace. */
  lemma StripSlice(s: string) returns (i: nat)
    ensures i + |Strip(s)| <= |s|
    ensures Strip(s) == s[i..i + |Strip(s)|]
    ensures AllSpace(s[..i]) && AllSpace(s[i + |Strip(s)|..])
    ensures IsStripped(Strip(s))
  {
    var l := TrimLeft(s);
    var r := TrimRight(l);
    TrimLeftSpec(s);
    TrimRightSpec(l);
    i := |s| - |l|;
    assert r == s[i..i + |r|];
    assert s[i + |r|..] == l[|r|..];
    assert r != "" ==> r[0] == l[0];
  }

  /** `strip` leaves nothing exactly when the text is all whitespace. */
  lemma StripEmpty(s: string)
    ensures Strip(s) == "" <==> AllSpace(s)
  {
    var i := StripSlice(s);
    var r := Strip(s);
    assert s == s[..i] + s[i..i + |r|] + s[i + |r|..];
    AllSpaceConcat(s[..i] + s[i..i + |r|], s[i + |r|..]);
    AllSpaceConcat(s[..i], s[i..i + |r|]);
    if r != "" {
      assert r[0] == s[i];
    }
  }

  /** Stripping text that has no outer whitespace changes nothing. */
  lemma StripStripped(s: string)
    requires IsStripped(s)
    ensures Strip(s) == s
  {
  }

  /** Leading whitespace does not survive stripping. */
  lemma StripSpacePrefix(c: char, s: string)
    requires IsSpace(c)
    ensures Strip([c] + s) == Strip(s)
  {
    assert ([c] + s)[1..] == s;
  }

  // ---------------------------------------------------------------------
  // split and join

  /** `sep.join(parts)`. */
  function JoinSep(parts: seq<string>, sep: string): string
  {
    if |parts| == 0 then ""
    else if |parts| == 1 then parts[0]
    else parts[0] + sep + JoinSep(parts[1..], sep)
  }

  /** `s.split(",")`: at least one piece, none of them with a comma. */
  function Split(s: string): (parts: seq<string>)
    ensures |parts| >= 1
    ensures CommaFree(parts)
    decreases |s|
  {
    if |s| == 0 then [""]
    else
      var rest := Split(s[1..]);
      if s[0] == ',' then [""] + rest
      else
        assert ',' !in [s[0]] + rest[0];
        [[s[0]] + rest[0]] + rest[1..]
  }

  /** Joining the pieces back with commas gives the text again. */
  lemma {:induction false} SplitJoinBack(s: string)
    ensures JoinSep(Split(s), ",") == s
    decreases |s|
  {
    if |s| > 0 {
      var rest := Split(s[1..]);
      SplitJoinBack(s[1..]);
      assert [s[0]] + s[1..] == s;
      if s[0] == ',' {
        assert ([""] + rest)[1..] == rest;
      } else {
        var parts := [[s[0]] + rest[0]] + rest[1..];
        assert Split(s) == parts;
        if |rest| > 1 {
          assert parts[1..] == rest[1..];
          assert JoinSep(rest, ",") == rest[0] + "," + JoinSep(rest[1..], ",");
        }
      }
    }
  }

  /** A comma separates the pieces of its two sides. */
  lemma {:induction false} SplitConcat(a: string, b: string)
    ensures Split(a + "," + b) == Split(a) + Split(b)
    decreases |a|
  {
    if |a| == 0 {
      assert a + "," + b == [','] + b;
      assert ([','] + b)[1..] == b;
    } else {
      var s := a + "," + b;
      assert s[0] == a[0] && s[1..] == a[1..] + "," + b;
      SplitConcat(a[1..], b);
    }
  }

  /** Comma-free text is a single piece. */
  lemma {:induction false} SplitCommaFree(x: string)
    requires ',' !in x
    ensures Split(x) == [x]
    decreases |x|
  {
    if |x| > 0 {
      assert ',' !in x[1..];
      SplitCommaFree(x[1..]);
      assert [x[0]] + x[1..] == x;
    }
  }

  /** Splitting undoes joining with commas, for comma-free pieces. */
  lemma {:induction false} SplitJoin(parts: seq<string>)
    requires |parts| >= 1
    requires CommaFree(parts)
    ensures Split(JoinSep(parts, ",")) == parts
    decreases |parts|
  {
    if |parts| == 1 {
      SplitCommaFree(parts[0]);
    } else {
      SplitJoin(parts[1..]);
      SplitConcat(parts[0], JoinSep(parts[1..], ","));
      SplitCommaFree(parts[0]);
    }
  }

  // ---------------------------------------------------------------------
  // the allow-list expression

  /** A stored allow-list entry: non-empty, without outer whitespace, without
      a comma, upper-case. */
  predicate IsNormalId(x: string)
  {
    x != "" && IsStripped(x) && ',' !in x && IsUpperCase(x)
  }

  predicate AllNormal(ids: seq<string>)
  {
    forall i :: 0 <= i < |ids| ==> IsNormalId(ids[i])
  }

  /** Pieces of text that contain no comma. */
  predicate CommaFree(pieces: seq<string>)
  {
    forall i :: 0 <= i < |pieces| ==> ',' !in pieces[i]
  }

  /** A non-blank comma-free piece, stripped and upper-cased, is a normal id. */
  lemma NormalPiece(piece: string)
    requires ',' !in piece && !AllSpace(piece)
    ensures IsNormalId(Upper(Strip(piece)))
  {
    var t := Strip(piece);
    var u := Upper(t);
    UpperFacts(t);
    StripEmpty(piece);
    var k := StripSlice(piece);
    forall i | 0 <= i < |u| ensures u[i] != ',' {
      assert t[i] == piece[k + i];
    }
    assert !IsSpace(u[0]) && !IsSpace(u[|u| - 1]);
  }

  /** What one comma-free piece contributes to the list: nothing for a
      blank piece, otherwise the piece stripped and upper-cased. */
  function Entry(piece: string): (ids: seq<string>)
    requires ',' !in piece
    ensures |ids| <= 1
  {
    var t := Strip(piece);
    if t == "" then [] else [Upper(t)]
  }

  /** A piece contributes nothing exactly when it is blank, and whatever it
      contributes is a normal id. */
  lemma EntryNormal(piece: string)
    requires ',' !in piece
    ensures Entry(piece) == [] <==> AllSpace(piece)
    ensures AllNormal(Entry(piece))
  {
    StripEmpty(piece);
    if !AllSpace(piece) {
      NormalPiece(piece);
    }
  }

  /** A normal id is its own entry. */
  lemma EntryOfNormal(x: string)
    requires IsNormalId(x)
    ensures Entry(x) == [x]
  {
    StripStripped(x);
    UpperFixpoint(x);
  }

  /** The comprehension over the pieces, in order. */
  function Normalise(pieces: seq<string>): (ids: seq<string>)
    requires CommaFree(pieces)
    ensures |ids| <= |pieces|
  {
    if |pieces| == 0 then [] else Entry(pieces[0]) + Normalise(pieces[1..])
  }

  /** Every entry the comprehension yields is a normal id. */
  lemma {:induction false} NormaliseNormal(pieces: seq<string>)
    requires CommaFree(pieces)
    ensures AllNormal(Normalise(pieces))
    decreases |pieces|
  {
    if |pieces| > 0 {
      var e := Entry(pieces[0]);
      var rest := Normalise(pieces[1..]);
      EntryNormal(pieces[0]);
      NormaliseNormal(pieces[1..]);
      assert Normalise(pieces) == e + rest;
      forall i | 0 <= i < |e + rest|
        ensures IsNormalId((e + rest)[i])
      {
        if i < |e| {
          assert (e + rest)[i] == e[i];
        } else {
          assert (e + rest)[i] == rest[i - |e|];
        }
      }
    }
  }

  /** `[s.strip().upper() for s in text.split(",") if s.strip()]`: every id
      it yields is non-empty, without outer whitespace, comma-free and
      upper-case. */
  function ParseIds(text: string): (ids: seq<string>)
    ensures AllNormal(ids)
  {
    NormaliseNormal(Split(text));
    Normalise(Split(text))
  }

  /** `", ".join(ids)`: parsing it back gives a list of normal ids again. */
  function JoinIds(ids: seq<string>): (text: string)
    ensures AllNormal(ids) ==> ParseIds(text) == ids
  {
    assert AllNormal(ids) ==> ParseIds(JoinSep(ids, ", ")) == ids by {
      if AllNormal(ids) {
        ParseJoinIds(ids);
      }
    }
    JoinSep(ids, ", ")
  }

  lemma {:induction false} NormaliseConcat(p: seq<string>, q: seq<string>)
    requires CommaFree(p) && CommaFree(q)
    ensures Normalise(p + q) == Normalise(p) + Normalise(q)
    decreases |p|
  {
    if |p| == 0 {
      assert p + q == q;
    } else {
      var pq := p + q;
      assert pq[0] == p[0];
      assert pq[1..] == p[1..] + q;
      assert CommaFree(pq) by {
        forall i | 0 <= i < |pq| ensures ',' !in pq[i] {
          if i < |p| { assert pq[i] == p[i]; } else { assert pq[i] == q[i - |p|]; }
        }
      }
      NormaliseConcat(p[1..], q);
      var e := Entry(p[0]);
      calc {
        Normalise(pq);
        e + Normalise(p[1..] + q);
        e + (Normalise(p[1..]) + Normalise(q));
        (e + Normalise(p[1..])) + Normalise(q);
        Normalise(p) + Normalise(q);
      }
    }
  }

  /** The entries of text on either side of a comma follow one another in
      order: nothing is added, dropped or reordered at a comma. */
  lemma ParseIdsConcat(a: string, b: string)
    ensures ParseIds(a + "," + b) == ParseIds(a) + ParseIds(b)
  {
    SplitConcat(a, b);
    NormaliseConcat(Split(a), Split(b));
  }

  /** Comma-free text yields its stripped, upper-cased self, or nothing when
      it is blank. */
  lemma ParseIdsPiece(x: string)
    requires ',' !in x
    ensures ParseIds(x) == Entry(x)
    ensures AllSpace(x) ==> ParseIds(x) == []
    ensures !AllSpace(x) ==> ParseIds(x) == [Upper(Strip(x))]
  {
    SplitCommaFree(x);
    EntryNormal(x);
    assert Normalise([x]) == Entry(x) + Normalise([]);
  }

  /** Text made of whitespace and commas only. */
  predicate Blank(text: string)
  {
    forall i :: 0 <= i < |text| ==> text[i] == ',' || IsSpace(text[i])
  }

  /** Blankness of text with a comma is blankness of both sides. */
  lemma BlankAtComma(text: string, i: nat)
    requires i < |text| && text[i] == ','
    ensures Blank(text) <==> Blank(text[..i]) && Blank(text[i + 1..])
  {
    var a, b := text[..i], text[i + 1..];
    if Blank(a) && Blank(b) {
      forall j | 0 <= j < |text| ensures text[j] == ',' || IsSpace(text[j]) {
        if j < i { assert text[j] == a[j]; }
        else if j > i { assert text[j] == b[j - i - 1]; }
      }
    }
  }

  /** Only whitespace and commas, the empty text included, give the empty
      list (which the handler reads as "allow every device"), and nothing
      else does. */
  lemma {:induction false} ParseIdsEmpty(text: string)
    ensures ParseIds(text) == [] <==> Blank(text)
    decreases |text|
  {
    if ',' !in text {
      ParseIdsPiece(text);
      assert Blank(text) <==> AllSpace(text);
    } else {
      var i :| 0 <= i < |text| && text[i] == ',';
      var a, b := text[..i], text[i + 1..];
      assert text == a + "," + b;
      ParseIdsConcat(a, b);
      ParseIdsEmpty(a);
      ParseIdsEmpty(b);
      BlankAtComma(text, i);
    }
  }

  lemma EntrySpacePrefix(c: char, piece: string)
    requires IsSpace(c) && ',' !in piece
    ensures ',' !in [c] + piece
    ensures Entry([c] + piece) == Entry(piece)
  {
    StripSpacePrefix(c, piece);
  }

  /** Whitespace in front of the text changes nothing. */
  lemma ParseIdsSpacePrefix(c: char, text: string)
    requires IsSpace(c)
    ensures ParseIds([c] + text) == ParseIds(text)
  {
    var rest := Split(text);
    var s := [c] + text;
    assert s[0] == c && s[1..] == text;
    var first := [c] + rest[0];
    assert Split(s) == [first] + rest[1..];
    EntrySpacePrefix(c, rest[0]);
    calc {
      ParseIds(s);
      Normalise([first] + rest[1..]);
      Entry(first) + Normalise(rest[1..]);
      Entry(rest[0]) + Normalise(rest[1..]);
      Normalise(rest);
    }
  }

  /** Parsing the rendering of a stored list gives the list back. */
  lemma {:induction false} ParseJoinIds(ids: seq<string>)
    requires AllNormal(ids)
    ensures ParseIds(JoinSep(ids, ", ")) == ids
    decreases |ids|
  {
    if |ids| == 0 {
      ParseIdsPiece("");
    } else if |ids| == 1 {
      EntryOfNormal(ids[0]);
      ParseIdsPiece(ids[0]);
    } else {
      var tail := JoinSep(ids[1..], ", ");
      assert JoinSep(ids, ", ") == ids[0] + "," + (" " + tail);
      ParseIdsConcat(ids[0], " " + tail);
      EntryOfNormal(ids[0]);
      ParseIdsPiece(ids[0]);
      ParseIdsSpacePrefix(' ', tail);
      ParseJoinIds(ids[1..]);
    }
  }

  /** Normalising twice is normalising once. */
  lemma ParseIdsIdempotent(text: string)
    ensures ParseIds(JoinIds(ParseIds(text))) == ParseIds(text)
  {
    ParseJoinIds(ParseIds(text));
  }

  // ---------------------------------------------------------------------
  // the two flow steps

  /** The submitted form: topic, timeout and the allow-list as typed. */
  datatype FormInput = FormInput(mqttTopic: string, autoOffTimeout: int, allowedIds: string)

  /** The stored options of a config entry. */
  datatype Options = Options(mqttTopic: string, autoOffTimeout: int, allowedIds: seq<string>)

  /** A submitted form turned into stored options. `async_step_user` and
      `async_step_init` do exactly the same with their input: topic and
      timeout as given, the allow-list text parsed. */
  function Submit(input: FormInput): (o: Options)
    ensures o.mqttTopic == input.mqttTopic && o.autoOffTimeout == input.autoOffTimeout
    ensures AllNormal(o.allowedIds)
  {
    Options(input.mqttTopic, input.autoOffTimeout, ParseIds(input.allowedIds))
  }

  /** The options form pre-filled from the current options. */
  function OptionsForm(current: Options): (f: FormInput)
    ensures f.mqttTopic == current.mqttTopic && f.autoOffTimeout == current.autoOffTimeout
    ensures AllNormal(current.allowedIds) ==> ParseIds(f.allowedIds) == current.allowedIds
  {
    FormInput(current.mqttTopic, current.autoOffTimeout, JoinIds(current.allowedIds))
  }

  /** Submitting the options form unchanged keeps the stored options. */
  lemma OptionsFormResubmit(input: FormInput)
    ensures Submit(OptionsForm(Submit(input))) == Submit(input)
  {
    ParseIdsIdempotent(input.allowedIds);
  }
}
