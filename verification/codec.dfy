/** The metadata codec: how a picture's rating and comment list live in the store's
    string-to-string metadata map, and how the handlers read them back.

    Ratings are decimal text (`str(rating)` / `int(text)`). The comment list is stored as
    one text value; in the source that text is JSON (`json.dumps` / `json.loads`). Here it
    is a self-delimiting escape encoding with the two JSON facts the handlers rely on:
    decoding an encoded list gives the list back, and `"[]"` is the empty list. Text that
    does not decode (the empty string included) is "malformed". */
module Codec {
  import opened Prelude

  type Metadata = map<string, string>

  /** The metadata keys the handlers read and write. */
  const NameKey := "original-name"
  const RatingKey := "rating"
  const CommentsKey := "comments"

  datatype Comment = Comment(author: string, text: string, date: string)

  // ---------------------------------------------------------------- decimal text

  predicate IsDigit(c: char) {
    '0' <= c <= '9'
  }

  function DigitChar(d: nat): char
    requires d < 10
  {
    ('0' as int + d) as char
  }

  function DigitValue(c: char): nat
    requires IsDigit(c)
  {
    c as int - '0' as int
  }

  /** `str(n)` for a non-negative integer: decimal digits, no leading zeros. */
  function NatText(n: nat): (r: string)
    ensures |r| >= 1
    ensures forall i :: 0 <= i < |r| ==> IsDigit(r[i])
  {
    if n < 10 then [DigitChar(n)] else NatText(n / 10) + [DigitChar(n % 10)]
  }

  /** `str(i)` for any integer. */
  function IntText(i: int): string {
    if i < 0 then "-" + NatText(-i) else NatText(i)
  }

  /** The value of a non-empty run of decimal digits; `None` for anything else. */
  function DigitsValue(s: string): (r: Option<nat>)
    ensures r.Some? ==> s != [] && forall i :: 0 <= i < |s| ==> IsDigit(s[i])
    decreases |s|
  {
    if s == [] || !IsDigit(s[|s| - 1]) then None
    else if |s| == 1 then Some(DigitValue(s[0]))
    else
      match DigitsValue(s[..|s| - 1])
      case None => None
      case Some(v) => Some(v * 10 + DigitValue(s[|s| - 1]))
  }

  /** `int(s)`: an optional sign followed by decimal digits; `None` where Python raises. */
  function ParseInt(s: string): Option<int> {
    if s != [] && s[0] == '-' then
      match DigitsValue(s[1..])
      case None => None
      case Some(v) => var n: int := v; Some(-n)
    else if s != [] && s[0] == '+' then
      match DigitsValue(s[1..])
      case None => None
      case Some(v) => Some(v)
    else
      match DigitsValue(s)
      case None => None
      case Some(v) => Some(v)
  }

  lemma {:induction false} NatTextRoundTrip(n: nat)
    ensures DigitsValue(NatText(n)) == Some(n)
  {
    if n >= 10 {
      NatTextRoundTrip(n / 10);
      var s := NatText(n);
      assert s[..|s| - 1] == NatText(n / 10);
    }
  }

  /** `int(str(i)) == i`. */
  lemma IntTextRoundTrip(i: int)
    ensures ParseInt(IntText(i)) == Some(i)
  {
    var s := IntText(i);
    if i < 0 {
      var digits := NatText(-i);
      assert s == "-" + digits;
      assert s[0] == '-' && s[1..] == digits;
      NatTextRoundTrip(-i);
    } else {
      assert s == NatText(i);
      assert IsDigit(s[0]);
      NatTextRoundTrip(i);
    }
  }

  /** `str(True)` is not something `int` accepts. */
  lemma TrueTextIsNotAnInteger()
    ensures ParseInt("True") == None
  {
    assert !IsDigit("True"[3]);
  }

  // ---------------------------------------------------------------- comment lists

  function Escape(s: string): (r: string)
    decreases |s|
  {
    if s == [] then []
    else (if s[0] == ';' || s[0] == '\\' then ['\\', s[0]] else [s[0]]) + Escape(s[1..])
  }

  function EncodeField(s: string): string {
    Escape(s) + [';']
  }

  /** Reads one escaped field terminated by `;`, returning it and the text after it. */
  function ReadField(s: string): (r: Option<(string, string)>)
    ensures r.Some? ==> |r.value.1| < |s|
    decreases |s|
  {
    if s == [] then None
    else if s[0] == ';' then Some(([], s[1..]))
    else if s[0] == '\\' then
      if |s| < 2 then None
      else
        match ReadField(s[2..])
        case None => None
        case Some((f, rest)) => Some(([s[1]] + f, rest))
    else
      match ReadField(s[1..])
      case None => None
      case Some((f, rest)) => Some(([s[0]] + f, rest))
  }

  function EncodeComment(c: Comment): string {
    EncodeField(c.author) + EncodeField(c.text) + EncodeField(c.date)
  }

  function EncodeList(cs: seq<Comment>): string
    decreases |cs|
  {
    if cs == [] then [] else EncodeComment(cs[0]) + EncodeList(cs[1..])
  }

  /** Reads the three fields of one comment, returning it and the text after it. */
  function ReadComment(s: string): (r: Option<(Comment, string)>)
    ensures r.Some? ==> |r.value.1| < |s|
  {
    match ReadField(s)
    case None => None
    case Some((author, s1)) =>
      match ReadField(s1)
      case None => None
      case Some((text, s2)) =>
        match ReadField(s2)
        case None => None
        case Some((date, s3)) => Some((Comment(author, text, date), s3))
  }

  function ReadList(s: string): Option<seq<Comment>>
    decreases |s|
  {
    if s == [] then Some([])
    else
      match ReadComment(s)
      case None => None
      case Some((c, rest)) =>
        match ReadList(rest)
        case None => None
        case Some(cs) => Some([c] + cs)
  }

  /** `json.dumps(comments)`. */
  function EncodeComments(cs: seq<Comment>): string {
    "[" + EncodeList(cs) + "]"
  }

  /** `json.loads(text)` for a comment list; `None` where it raises. */
  function DecodeComments(s: string): Option<seq<Comment>> {
    if |s| >= 2 && s[0] == '[' && s[|s| - 1] == ']' then ReadList(s[1..|s| - 1]) else None
  }

  /** An escaped character is read back as that character. */
  lemma ReadEscaped(c: char, tail: string, f: string, rest: string)
    requires ReadField(tail) == Some((f, rest))
    ensures ReadField(['\\', c] + tail) == Some(([c] + f, rest))
  {
    var s := ['\\', c] + tail;
    assert s[0] == '\\' && s[1] == c && s[2..] == tail;
  }

  /** Any other character is read back as itself. */
  lemma ReadPlain(c: char, tail: string, f: string, rest: string)
    requires c != ';' && c != '\\'
    requires ReadField(tail) == Some((f, rest))
    ensures ReadField([c] + tail) == Some(([c] + f, rest))
  {
    var s := [c] + tail;
    assert s[0] == c && s[1..] == tail;
  }

  lemma {:induction false} ReadFieldRoundTrip(x: string, rest: string)
    ensures ReadField(Escape(x) + [';'] + rest) == Some((x, rest))
    decreases |x|
  {
    if x == [] {
      assert Escape(x) + [';'] + rest == [';'] + rest;
    } else {
      var tail := Escape(x[1..]) + [';'] + rest;
      ReadFieldRoundTrip(x[1..], rest);
      assert [x[0]] + x[1..] == x;
      if x[0] == ';' || x[0] == '\\' {
        assert Escape(x) + [';'] + rest == ['\\', x[0]] + tail;
        ReadEscaped(x[0], tail, x[1..], rest);
      } else {
        assert Escape(x) + [';'] + rest == [x[0]] + tail;
        ReadPlain(x[0], tail, x[1..], rest);
      }
    }
  }

  lemma ReadCommentRoundTrip(c: Comment, rest: string)
    ensures ReadComment(EncodeComment(c) + rest) == Some((c, rest))
  {
    var s2 := EncodeField(c.date) + rest;
    var s1 := EncodeField(c.text) + s2;
    assert EncodeComment(c) + rest == Escape(c.author) + [';'] + s1;
    ReadFieldRoundTrip(c.author, s1);
    assert s1 == Escape(c.text) + [';'] + s2;
    ReadFieldRoundTrip(c.text, s2);
    assert s2 == Escape(c.date) + [';'] + rest;
    ReadFieldRoundTrip(c.date, rest);
  }

  lemma {:induction false} ReadListRoundTrip(cs: seq<Comment>)
    ensures ReadList(EncodeList(cs)) == Some(cs)
    decreases |cs|
  {
    if cs != [] {
      var later := EncodeList(cs[1..]);
      ReadCommentRoundTrip(cs[0], later);
      assert EncodeList(cs) != [] by {
        assert |EncodeComment(cs[0])| > 0;
      }
      ReadListRoundTrip(cs[1..]);
      assert [cs[0]] + cs[1..] == cs;
    }
  }

  /** Decoding an encoded comment list gives the same list back, in the same order. */
  lemma CommentsRoundTrip(cs: seq<Comment>)
    ensures DecodeComments(EncodeComments(cs)) == Some(cs)
  {
    var s := EncodeComments(cs);
    assert s[1..|s| - 1] == EncodeList(cs);
    ReadListRoundTrip(cs);
  }

  /** `"[]"`, the value an upload writes, decodes to the empty list; `""` is malformed. */
  lemma EmptyListText()
    ensures DecodeComments("[]") == Some([])
    ensures DecodeComments("") == None
  {
    CommentsRoundTrip([]);
    assert EncodeComments([]) == "[]";
  }

  // ---------------------------------------------------------------- metadata views

  /** The picture's comments as every handler reads them: absent, empty or malformed
      text gives the empty list, and reading never fails. */
  function CommentsOf(md: Metadata): (r: seq<Comment>)
    ensures CommentsKey !in md ==> r == []
    ensures CommentsKey in md && DecodeComments(md[CommentsKey]).None? ==> r == []
  {
    if CommentsKey in md then DecodeComments(md[CommentsKey]).GetOr([]) else []
  }

  /** Comments written with `EncodeComments` are read back unchanged. */
  lemma CommentsOfEncoded(md: Metadata, cs: seq<Comment>)
    requires CommentsKey in md && md[CommentsKey] == EncodeComments(cs)
    ensures CommentsOf(md) == cs
  {
    CommentsRoundTrip(cs);
  }

  /** The rating as the unified listing reads it (unified_lambda.py:1540):
      `int(md.get('rating', 0)) if md.get('rating') else 0`. `None` where `int` raises. */
  function ListingRating(md: Metadata): (r: Option<int>)
    ensures RatingKey !in md || md[RatingKey] == "" ==> r == Some(0)
  {
    if RatingKey !in md || md[RatingKey] == "" then Some(0) else ParseInt(md[RatingKey])
  }

  /** The rating as backend_lambda.py reads it (lines 132 and 677):
      `int(md.get('rating', 0))`, so an empty value raises. */
  function StrictRating(md: Metadata): (r: Option<int>)
    ensures RatingKey !in md ==> r == Some(0)
    ensures RatingKey in md && md[RatingKey] == "" ==> r == None
  {
    if RatingKey !in md then Some(0) else ParseInt(md[RatingKey])
  }

  /** A rating stored as `str(n)` is read back as `n` by both readers. */
  lemma StoredRatingReadBack(md: Metadata, n: int)
    requires RatingKey in md && md[RatingKey] == IntText(n)
    ensures ListingRating(md) == Some(n) && StrictRating(md) == Some(n)
  {
    IntTextRoundTrip(n);
  }

  /** The display name of an object: `md.get('original-name', fallback)`. */
  function DisplayName(md: Metadata, fallback: string): (r: string)
    ensures NameKey in md ==> r == md[NameKey]
    ensures NameKey !in md ==> r == fallback
  {
    if NameKey in md then md[NameKey] else fallback
  }
}
