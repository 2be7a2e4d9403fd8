/** The flat JSON objects the audit log is written as, and reading them back. */
module Json {
  import opened Records
  import opened Text
  import Utf8

  datatype Value = Str(text: string) | Num(number: nat) | Null

  type Members = seq<(string, Value)>

  /* ---- strings ---- */

  /** `char::is_control`. */
  predicate IsControl(c: char) {
    var v := c as int;
    v < 0x20 || 0x7F <= v < 0xA0
  }

  /** `{:04x}`. */
  function Hex4(v: nat): (s: string)
    requires v < 0x1_0000
    ensures |s| == 4
  {
    [Utf8.HexDigit(v / 16 / 16 / 16), Utf8.HexDigit(v / 16 / 16 % 16), Utf8.HexDigit(v / 16 % 16),
     Utf8.HexDigit(v % 16)]
  }

  function EscChar(c: char): (s: string)
    ensures s != ""
  {
    match c
    case '"' => "\\\""
    case '\\' => "\\\\"
    case '\n' => "\\n"
    case '\r' => "\\r"
    case '\t' => "\\t"
    case _ => if IsControl(c) then "\\u" + Hex4(c as int) else [c]
  }

  /** `esc`. */
  function Esc(s: string): string {
    if s == "" then "" else EscChar(s[0]) + Esc(s[1..])
  }

  function FourHex(a: char, b: char, c: char, d: char): Option<int> {
    match (Utf8.HexValue(a), Utf8.HexValue(b), Utf8.HexValue(c), Utf8.HexValue(d))
    case (Some(w), Some(x), Some(y), Some(z)) => Some(((w * 16 + x) * 16 + y) * 16 + z)
    case _ => None
  }

  /** One character after a backslash, and what follows it. */
  function ReadEscape(s: string): (r: Option<(char, string)>)
    ensures r.Some? ==> |r.value.1| < |s|
  {
    if s == "" then None
    else
      match s[0]
      case '"' => Some(('"', s[1..]))
      case '\\' => Some(('\\', s[1..]))
      case '/' => Some(('/', s[1..]))
      case 'b' => Some((8 as char, s[1..]))
      case 'f' => Some((12 as char, s[1..]))
      case 'n' => Some(('\n', s[1..]))
      case 'r' => Some(('\r', s[1..]))
      case 't' => Some(('\t', s[1..]))
      case 'u' =>
        if |s| < 5 then None
        else
          var v := FourHex(s[1], s[2], s[3], s[4]);
          if v.None? || !Utf8.IsScalar(v.value) then None else Some((v.value as char, s[5..]))
      case _ => None
  }

  /** One character of a string, and what follows it. */
  function ReadChar(s: string): (r: Option<(char, string)>)
    requires s != ""
    ensures r.Some? ==> |r.value.1| < |s|
  {
    if s[0] == '\\' then ReadEscape(s[1..])
    else if (s[0] as int) < 0x20 then None
    else Some((s[0], s[1..]))
  }

  /** The rest of a string whose opening quote has been read, and what follows its closing quote. */
  function ReadString(s: string): (r: Option<(string, string)>)
    ensures r.Some? ==> |r.value.1| < |s|
    decreases |s|
  {
    if s == "" then None
    else if s[0] == '"' then Some(("", s[1..]))
    else
      var head := ReadChar(s);
      if head.None? then None
      else
        var tail := ReadString(head.value.1);
        if tail.None? then None else Some(([head.value.0] + tail.value.0, tail.value.1))
  }

  lemma FourHexOfHex4(v: nat)
    requires v < 0x1_0000
    ensures FourHex(Hex4(v)[0], Hex4(v)[1], Hex4(v)[2], Hex4(v)[3]) == Some(v)
  {
    Utf8.HexDigitValue(v / 16 / 16 / 16);
    Utf8.HexDigitValue(v / 16 / 16 % 16);
    Utf8.HexDigitValue(v / 16 % 16);
    Utf8.HexDigitValue(v % 16);
  }

  lemma ReadCharOfControl(c: char, rest: string)
    requires IsControl(c) && c !in "\n\r\t"
    ensures ReadChar(EscChar(c) + rest) == Some((c, rest))
  {
    FourHexOfHex4(c as int);
    EscapeText(Hex4(c as int), rest);
    EscapeStep((EscChar(c) + rest)[1..], c, rest);
  }

  lemma EscapeText(digits: string, rest: string)
    requires |digits| == 4
    ensures var s := "\\u" + digits + rest; s[0] == '\\' && s[1..] == "u" + digits + rest
    ensures var t := "u" + digits + rest;
      t[0] == 'u' && t[1] == digits[0] && t[2] == digits[1] && t[3] == digits[2] && t[4] == digits[3] && t[5..] == rest
  {
  }

  lemma EscapeStep(t: string, c: char, rest: string)
    requires |t| >= 5 && t[0] == 'u' && t[5..] == rest && FourHex(t[1], t[2], t[3], t[4]) == Some(c as int)
    ensures ReadEscape(t) == Some((c, rest))
  {
  }

  lemma ReadCharOfEsc(c: char, rest: string)
    ensures ReadChar(EscChar(c) + rest) == Some((c, rest)) && (EscChar(c) + rest)[0] != '"'
  {
    var s := EscChar(c) + rest;
    if c in "\"\\\n\r\t" {
      assert s[0] == '\\' && s[1..][1..] == rest;
    } else if IsControl(c) {
      ReadCharOfControl(c, rest);
    } else {
      assert s[0] == c && s[1..] == rest;
    }
  }

  /** An escaped string reads back, whatever follows it. */
  lemma {:induction false} ReadStringOfEsc(s: string, rest: string)
    ensures ReadString(Esc(s) + "\"" + rest) == Some((s, rest))
  {
    var text := Esc(s) + "\"" + rest;
    if s == "" {
      assert text[0] == '"' && text[1..] == rest;
    } else {
      var tail := Esc(s[1..]) + "\"" + rest;
      assert text == EscChar(s[0]) + tail;
      ReadCharOfEsc(s[0], tail);
      ReadStringOfEsc(s[1..], rest);
      assert [s[0]] + s[1..] == s;
    }
  }

  /* ---- numbers ---- */

  function CountDigits(s: string): (n: nat)
    ensures n <= |s| && forall i :: 0 <= i < n ==> IsDigit(s[i])
    ensures n < |s| ==> !IsDigit(s[n])
  {
    if s == "" || !IsDigit(s[0]) then 0 else 1 + CountDigits(s[1..])
  }

  lemma {:induction false} DecHasNoLeadingZero(n: nat)
    ensures n > 0 ==> Dec(n)[0] != '0'
  {
    if n >= 10 { DecHasNoLeadingZero(n / 10); }
  }

  /* ---- values and objects ---- */

  function PrintValue(v: Value): (s: string)
    ensures s != ""
  {
    match v
    case Str(text) => "\"" + Esc(text) + "\""
    case Num(n) => Dec(n)
    case Null => "null"
  }

  function PrintMember(m: (string, Value)): string {
    "\"" + Esc(m.0) + "\":" + PrintValue(m.1)
  }

  function PrintMembers(members: Members): string
    requires members != []
  {
    if |members| == 1 then PrintMember(members[0])
    else PrintMember(members[0]) + "," + PrintMembers(members[1..])
  }

  function PrintObject(members: Members): string
    requires members != []
  {
    "{" + PrintMembers(members) + "}"
  }

  /** A value, and what follows it. Numbers are unsigned integers without leading zeros. */
  function ReadValue(s: string): (r: Option<(Value, string)>)
    ensures r.Some? ==> |r.value.1| < |s|
  {
    var n := CountDigits(s);
    if s == "" then None
    else if s[0] == '"' then
      match ReadString(s[1..])
      case Some((text, rest)) => Some((Str(text), rest))
      case None => None
    else if "null" <= s then Some((Null, s[4..]))
    else if n == 0 || (s[0] == '0' && n > 1) then None
    else
      assert forall c <- s[..n] :: IsDigit(c);
      Some((Num(DecValue(s[..n])), s[n..]))
  }

  /** A member, and what follows it. */
  function ReadMember(s: string): (r: Option<((string, Value), string)>)
    ensures r.Some? ==> |r.value.1| < |s|
  {
    if s == "" || s[0] != '"' then None
    else
      match ReadString(s[1..])
      case None => None
      case Some((key, after)) =>
        if after == "" || after[0] != ':' then None
        else
          match ReadValue(after[1..])
          case None => None
          case Some((v, rest)) => Some(((key, v), rest))
  }

  /** The members of an object whose opening brace has been read; nothing may follow its closing brace. */
  function ReadMembers(s: string): Option<Members>
    decreases |s|
  {
    match ReadMember(s)
    case None => None
    case Some((member, rest)) =>
      if rest == "}" then Some([member])
      else if rest != "" && rest[0] == ',' then
        match ReadMembers(rest[1..])
        case None => None
        case Some(more) => Some([member] + more)
      else None
  }

  function ReadObject(s: string): Option<Members> {
    if s == "" || s[0] != '{' then None else ReadMembers(s[1..])
  }

  /** The last member of that name, as an object map keeps it. */
  function Get(members: Members, key: string): Option<Value> {
    if members == [] then None
    else
      var last := members[|members| - 1];
      if last.0 == key then Some(last.1) else Get(members[..|members| - 1], key)
  }

  /** What follows a value when it is printed inside an object. */
  predicate Follows(rest: string) {
    rest != "" && rest[0] in ",}"
  }

  lemma {:induction false} CountDigitsOf(s: string, rest: string)
    requires (forall c <- s :: IsDigit(c)) && (rest == "" || !IsDigit(rest[0]))
    ensures CountDigits(s + rest) == |s|
  {
    if s == "" {
      assert s + rest == rest;
    } else {
      assert (s + rest)[1..] == s[1..] + rest;
      CountDigitsOf(s[1..], rest);
    }
  }

  lemma ReadNumber(n: nat, rest: string)
    requires Follows(rest)
    ensures ReadValue(Dec(n) + rest) == Some((Num(n), rest))
  {
    var s := Dec(n) + rest;
    CountDigitsOf(Dec(n), rest);
    DecHasNoLeadingZero(n);
    DecRoundTrip(n);
    assert s[..|Dec(n)|] == Dec(n) && s[|Dec(n)|..] == rest;
    assert IsDigit(s[0]) by { assert Dec(n)[0] in Dec(n); }
  }

  lemma ReadText(text: string, rest: string)
    ensures ReadValue("\"" + Esc(text) + "\"" + rest) == Some((Str(text), rest))
  {
    QuotedText(Esc(text), rest);
    ReadStringOfEsc(text, rest);
    TextStep("\"" + Esc(text) + "\"" + rest, text, rest);
  }

  lemma QuotedText(text: string, rest: string)
    ensures var s := "\"" + text + "\"" + rest; s[0] == '"' && s[1..] == text + "\"" + rest
  {
  }

  lemma TextStep(s: string, text: string, rest: string)
    requires s != "" && s[0] == '"' && ReadString(s[1..]) == Some((text, rest))
    ensures ReadValue(s) == Some((Str(text), rest))
  {
  }

  lemma ReadNull(rest: string)
    ensures ReadValue("null" + rest) == Some((Null, rest))
  {
    var s := "null" + rest;
    assert s[0] == 'n' && "null" <= s && s[4..] == rest;
  }

  lemma ReadPrintedValue(v: Value, rest: string)
    requires Follows(rest)
    ensures ReadValue(PrintValue(v) + rest) == Some((v, rest))
  {
    match v
    case Str(text) => ReadText(text, rest);
    case Num(n) => ReadNumber(n, rest);
    case Null => ReadNull(rest);
  }

  lemma MemberStep(s: string, m: (string, Value), after: string, rest: string)
    requires s != "" && s[0] == '"' && ReadString(s[1..]) == Some((m.0, after))
    requires after != "" && after[0] == ':' && ReadValue(after[1..]) == Some((m.1, rest))
    ensures ReadMember(s) == Some((m, rest))
  {
  }

  /** A quoted name, a colon and a value, piece by piece. */
  lemma MemberText(name: string, value: string, rest: string)
    ensures var s, after := "\"" + name + "\":" + value + rest, ":" + (value + rest);
      s[0] == '"' && s[1..] == name + "\"" + after && after[0] == ':' && after[1..] == value + rest
  {
  }

  lemma ReadPrintedMember(m: (string, Value), rest: string)
    requires Follows(rest)
    ensures ReadMember(PrintMember(m) + rest) == Some((m, rest))
  {
    var after := ":" + (PrintValue(m.1) + rest);
    MemberText(Esc(m.0), PrintValue(m.1), rest);
    ReadStringOfEsc(m.0, after);
    ReadPrintedValue(m.1, rest);
    MemberStep(PrintMember(m) + rest, m, after, rest);
  }

  lemma MembersStep(s: string, m: (string, Value), rest: string, more: Members)
    requires ReadMember(s) == Some((m, rest))
    requires if more == [] then rest == "}" else rest != "" && rest[0] == ',' && ReadMembers(rest[1..]) == Some(more)
    ensures ReadMembers(s) == Some([m] + more)
  {
    if more == [] {
      assert [m] + more == [m];
    } else {
      assert rest != "}";
    }
  }

  lemma CommaText(first: string, more: string, end: string)
    ensures var rest := "," + (more + end);
      first + "," + more + end == first + rest && rest[0] == ',' && rest[1..] == more + end
  {
  }

  lemma {:induction false} ReadPrintedMembers(members: Members)
    requires members != []
    ensures ReadMembers(PrintMembers(members) + "}") == Some(members)
  {
    var s, m, more := PrintMembers(members) + "}", members[0], members[1..];
    assert members == [m] + more;
    if more == [] {
      ReadPrintedMember(m, "}");
      MembersStep(s, m, "}", more);
    } else {
      var rest := "," + (PrintMembers(more) + "}");
      CommaText(PrintMember(m), PrintMembers(more), "}");
      ReadPrintedMembers(more);
      ReadPrintedMember(m, rest);
      MembersStep(s, m, rest, more);
    }
  }

  /** A printed object reads back as the members it was printed from, whatever text they hold. */
  lemma ObjectRoundTrip(members: Members)
    requires members != []
    ensures ReadObject(PrintObject(members)) == Some(members)
  {
    ReadPrintedMembers(members);
    assert PrintObject(members)[1..] == PrintMembers(members) + "}";
  }

  lemma MembersRefused(s: string, m: (string, Value), rest: string)
    requires ReadMember(s) == Some((m, rest)) && rest != "}"
    requires rest == "" || rest[0] != ',' || ReadMembers(rest[1..]) == None
    ensures ReadMembers(s) == None
  {
  }

  lemma {:induction false} TrailingRefusedAfter(members: Members, end: string)
    requires members != [] && |end| > 1 && end[0] == '}'
    ensures ReadMembers(PrintMembers(members) + end) == None
  {
    var s, m, more := PrintMembers(members) + end, members[0], members[1..];
    if more == [] {
      ReadPrintedMember(m, end);
      MembersRefused(s, m, end);
    } else {
      var rest := "," + (PrintMembers(more) + end);
      CommaText(PrintMember(m), PrintMembers(more), end);
      TrailingRefusedAfter(more, end);
      ReadPrintedMember(m, rest);
      MembersRefused(s, m, rest);
    }
  }

  lemma BracedText(text: string, extra: string)
    ensures var s := "{" + text + "}" + extra; s[0] == '{' && s[1..] == text + ("}" + extra)
  {
  }

  /** A printed object with anything after it is refused. */
  lemma TrailingRefused(members: Members, extra: string)
    requires members != [] && extra != ""
    ensures ReadObject(PrintObject(members) + extra) == None
  {
    TrailingRefusedAfter(members, "}" + extra);
    BracedText(PrintMembers(members), extra);
  }

  /**
   * Which characters are escaped: quotes, backslashes and the two ranges of
   * control characters, and nothing else; those without a short form as four
   * lower-case hexadecimal digits.
   */
  lemma EscCharExactly(c: char)
    ensures var v, s := c as int, EscChar(c);
      (s == [c] <==> (0x20 <= v < 0x7F || v > 0x9F) && c != '"' && c != '\\') &&
      (s != [c] ==> s[0] == '\\' && ReadChar(s) == Some((c, ""))) &&
      (|s| == 6 <==> (v < 0x20 || 0x7F <= v <= 0x9F) && v != 9 && v != 10 && v != 13) &&
      (|s| == 6 ==> s[1] == 'u' && forall i :: 2 <= i < 6 ==> '0' <= s[i] <= '9' || 'a' <= s[i] <= 'f')
  {
    ReadCharOfEsc(c, "");
    assert EscChar(c) + "" == EscChar(c);
  }

  /* ---- a printed object stays on one line ---- */

  lemma EscCharIsTidy(c: char)
    ensures Tidy(EscChar(c))
  {
    if IsControl(c) && c !in "\n\r\t" {
      assert Tidy(Hex4(c as int)) && Tidy("\\u");
      TidyConcat("\\u", Hex4(c as int));
    }
  }

  lemma {:induction false} EscIsTidy(s: string)
    ensures Tidy(Esc(s))
  {
    if s != "" {
      EscCharIsTidy(s[0]);
      EscIsTidy(s[1..]);
      TidyConcat(EscChar(s[0]), Esc(s[1..]));
    }
  }

  lemma ValueIsTidy(v: Value)
    ensures Tidy(PrintValue(v))
  {
    match v
    case Str(text) =>
      EscIsTidy(text);
      TidyConcat("\"", Esc(text));
      TidyConcat("\"" + Esc(text), "\"");
    case Num(n) => DecIsTidy(n);
    case Null => assert Tidy("null");
  }

  lemma {:induction false} MembersAreTidy(members: Members)
    requires members != []
    ensures Tidy(PrintMembers(members))
  {
    var m := members[0];
    EscIsTidy(m.0);
    ValueIsTidy(m.1);
    TidyConcat("\"", Esc(m.0));
    TidyConcat("\"" + Esc(m.0), "\":");
    TidyConcat("\"" + Esc(m.0) + "\":", PrintValue(m.1));
    if |members| > 1 {
      MembersAreTidy(members[1..]);
      TidyConcat(PrintMember(m), ",");
      TidyConcat(PrintMember(m) + ",", PrintMembers(members[1..]));
    }
  }
}
