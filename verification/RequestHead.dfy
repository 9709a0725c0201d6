/** The request header writer of transport/http1_transport.go: which header lines go on the
    wire, how often and in which order, for any header order and any map iteration order. */
module RequestHead {

  import opened Numbers
  import opened Sequences
  import opened Text

  /** Map keys under which the http package keeps the wanted header orders. */
  const HEADER_ORDER_KEY := "Header-Order:"
  const PHEADER_ORDER_KEY := "PHeader-Order:"

  const CL := "Content-Length"
  const TE := "Transfer-Encoding"
  const HOST := "Host"
  const CONNECTION := "Connection"

  const DEFAULT_ORDER: seq<string> :=
    ["Connection", "Cache-Control", "Upgrade-Insecure-Requests", "User-Agent", "Accept", "Accept-Encoding",
     "Accept-Language", "Cookie", "Referer", "Origin", "Sec-Fetch-Dest", "Sec-Fetch-Mode", "Sec-Fetch-Site",
     "Sec-Fetch-User", "Content-Type", "Content-Length", "Transfer-Encoding"]

  type Header = map<string, seq<string>>

  datatype Request = Request(header: Header, contentLength: int, hasBody: bool, noBody: bool)

  datatype Line = Line(name: string, value: string)

  // ----- Canonical names -----

  predicate IsToken(c: char) {
    || 'a' <= c <= 'z' || 'A' <= c <= 'Z' || '0' <= c <= '9'
    || c == '!' || '#' <= c <= '\'' || c == '*' || c == '+' || c == '-' || c == '.' || '^' <= c <= '`' || c == '|' || c == '~'
  }

  /** Upper case at the start and after each hyphen, lower case elsewhere; a name that is
      not a token is left alone. */
  function Canonical(s: string): (r: string)
    ensures |r| == |s|
  {
    if exists i :: 0 <= i < |s| && !IsToken(s[i]) then s
    else seq(|s|, i requires 0 <= i < |s| => if i == 0 || s[i - 1] == '-' then UpperChar(s[i]) else LowerChar(s[i]))
  }

  lemma FoldedNamesShareCanonical(a: string, b: string)
    requires EqualFold(a, b) && forall i :: 0 <= i < |b| ==> IsToken(b[i])
    ensures Canonical(a) == Canonical(b)
  {
    assert |a| == |ToLower(a)| == |ToLower(b)| == |b|;
    forall i | 0 <= i < |a|
      ensures LowerChar(a[i]) == LowerChar(b[i])
      ensures IsToken(a[i]) && UpperChar(a[i]) == UpperChar(b[i]) && (a[i] == '-' <==> b[i] == '-')
    {
      assert ToLower(a)[i] == ToLower(b)[i];
    }
  }

  lemma CanonicalKeepsFold(s: string)
    ensures EqualFold(Canonical(s), s)
  {}

  lemma SpecialNamesAreCanonical()
    ensures forall i :: 0 <= i < |CL| ==> IsToken(CL[i])
    ensures forall i :: 0 <= i < |TE| ==> IsToken(TE[i])
    ensures Canonical(CL) == CL && Canonical(TE) == TE
  {
    forall i | 0 <= i < |CL| ensures IsToken(CL[i]) && Canonical(CL)[i] == CL[i] {}
    forall i | 0 <= i < |TE| ensures IsToken(TE[i]) && Canonical(TE)[i] == TE[i] {}
  }

  lemma SpecialNames(e: string)
    ensures EqualFold(e, CL) <==> EqualFold(Canonical(e), CL)
    ensures EqualFold(e, TE) <==> EqualFold(Canonical(e), TE)
    ensures EqualFold(e, HOST) <==> EqualFold(Canonical(e), HOST)
    ensures EqualFold(e, CL) ==> Canonical(e) == CL
    ensures EqualFold(e, TE) ==> Canonical(e) == TE
  {
    CanonicalKeepsFold(e);
    SpecialNamesAreCanonical();
    if EqualFold(e, CL) { FoldedNamesShareCanonical(e, CL); }
    if EqualFold(e, TE) { FoldedNamesShareCanonical(e, TE); }
  }

  // ----- What should be on the wire -----

  function HeaderValues(req: Request, k: string): seq<string> {
    if k in req.header then req.header[k] else []
  }

  function OrderOf(req: Request): seq<string> {
    if HeaderValues(req, HEADER_ORDER_KEY) != [] then req.header[HEADER_ORDER_KEY] else DEFAULT_ORDER
  }

  predicate UseChunked(req: Request) {
    req.hasBody && !req.noBody && req.contentLength <= 0
    && (HeaderValues(req, CL) == [] || HeaderValues(req, CL)[0] == "")
  }

  predicate HasLength(req: Request) {
    CL in req.header || req.contentLength > 0 || (req.contentLength == 0 && req.hasBody)
  }

  function LengthValues(req: Request): seq<string> {
    if CL in req.header then req.header[CL]
    else if req.contentLength > 0 then [Decimal(req.contentLength)]
    else if req.contentLength == 0 && req.hasBody then ["0"]
    else []
  }

  /** How many entries of a header order stand for the name `k`. */
  function Occurrences(order: seq<string>, k: string): nat {
    if order == [] then 0 else
      Occurrences(order[..|order| - 1], k) + if Canonical(order[|order| - 1]) == k then 1 else 0
  }

  function Repeat(values: seq<string>, n: nat): seq<string> {
    if n == 0 then [] else Repeat(values, n - 1) + values
  }

  function ValuesOf(out: seq<Line>, k: string): seq<string> {
    if out == [] then [] else
      ValuesOf(out[..|out| - 1], k) + if out[|out| - 1].name == k then [out[|out| - 1].value] else []
  }

  /** The values that must appear under exactly the name `k`. A header is written once, or
      as often as the order repeats it. */
  function Expected(req: Request, chunked: bool, k: string): seq<string> {
    ExpectedTimes(req, chunked, k, Occurrences(OrderOf(req), k))
  }

  /** The same for a header order that names `k` just `n` times. */
  function ExpectedTimes(req: Request, chunked: bool, k: string, n: nat): seq<string> {
    var once := if n == 0 then 1 else n;
    if EqualFold(k, HOST) then []
    else if chunked && (EqualFold(k, CL) || EqualFold(k, TE)) then
      if k == TE then Repeat(["chunked"], once) else []
    else if k == HEADER_ORDER_KEY || k == PHEADER_ORDER_KEY then Repeat(HeaderValues(req, k), n)
    else if k == TE then HeaderValues(req, k)
    else if k == CL then Repeat(LengthValues(req), once)
    else if k == CONNECTION && k !in req.header then ["keep-alive"]
    else Repeat(HeaderValues(req, k), once)
  }

  function LinesOf(name: string, values: seq<string>): seq<Line> {
    seq(|values|, i requires 0 <= i < |values| => Line(name, values[i]))
  }

  /** What one entry of the header order puts on the wire. */
  function EntryValues(req: Request, chunked: bool, k: string): seq<string> {
    if EqualFold(k, HOST) then []
    else if k == CL then if chunked then [] else LengthValues(req)
    else if k == TE then if chunked then ["chunked"] else []
    else HeaderValues(req, k)
  }

  /** The first part of the head, entry by entry in the wanted order. */
  function OrderedLines(req: Request, chunked: bool, order: seq<string>): seq<Line> {
    if order == [] then [] else
      var k := Canonical(order[|order| - 1]);
      OrderedLines(req, chunked, order[..|order| - 1]) + LinesOf(k, EntryValues(req, chunked, k))
  }

  // ----- The writer -----

  method WriteLines(out: seq<Line>, name: string, values: seq<string>) returns (out': seq<Line>)
    ensures out' == out + LinesOf(name, values)
  {
    out' := out;
    for i := 0 to |values|
      invariant out' == out + LinesOf(name, values[..i])
    {
      out' := out' + [Line(name, values[i])];
      assert LinesOf(name, values[..i + 1]) == LinesOf(name, values[..i]) + [Line(name, values[i])];
    }
    assert values[..|values|] == values;
  }

  predicate Marked(req: Request, chunked: bool, k: string) {
    !EqualFold(k, HOST) && if k == CL then !chunked && HasLength(req) else if k == TE then chunked else k in req.header
  }

  method WriteOrdered(req: Request, chunked: bool, order: seq<string>) returns (out: seq<Line>, written: set<string>)
    ensures out == OrderedLines(req, chunked, order)
    ensures forall k :: k in written <==> Occurrences(order, k) > 0 && Marked(req, chunked, k)
  {
    NamesApart(CL);
    NamesApart(TE);
    hide EqualFold, Canonical, Decimal, LinesOf, OrderOf;
    out, written := [], {};
    for i := 0 to |order|
      invariant out == OrderedLines(req, chunked, order[..i])
      invariant forall k :: k in written <==> Occurrences(order[..i], k) > 0 && Marked(req, chunked, k)
    {
      var e := order[i];
      var key := Canonical(e);
      SpecialNames(e);
      assert order[..i + 1][..i] == order[..i];
      ghost var before := out;
      if EqualFold(e, CL) {
        if !chunked {
          if key in req.header {
            out := WriteLines(out, key, req.header[key]);
            written := written + {key};
          } else if req.contentLength > 0 {
            out := WriteLines(out, CL, [Decimal(req.contentLength)]);
            written := written + {key};
          } else if req.contentLength == 0 && req.hasBody {
            out := WriteLines(out, CL, ["0"]);
            written := written + {key};
          }
        }
      } else if EqualFold(e, TE) {
        if chunked {
          out := WriteLines(out, TE, ["chunked"]);
          written := written + {key};
        }
      } else if !EqualFold(e, HOST) && key in req.header {
        out := WriteLines(out, key, req.header[key]);
        written := written + {key};
      }
      assert out == before + LinesOf(key, EntryValues(req, chunked, key));
    }
    assert order[..|order|] == order;
  }

  predicate Eligible(req: Request, chunked: bool, k: string) {
    && k in req.header && !EqualFold(k, HOST)
    && k != HEADER_ORDER_KEY && k != PHEADER_ORDER_KEY
    && !(chunked && (EqualFold(k, TE) || EqualFold(k, CL)))
  }

  /** The headers that the order did not name, in map iteration order. */
  function RestLines(req: Request, chunked: bool, keys: seq<string>, skip: set<string>): seq<Line> {
    if keys == [] then [] else
      var k := keys[|keys| - 1];
      RestLines(req, chunked, keys[..|keys| - 1], skip)
      + if Eligible(req, chunked, k) && k !in skip then LinesOf(k, req.header[k]) else []
  }

  method WriteRest(req: Request, chunked: bool, keys: seq<string>, already: set<string>)
    returns (out: seq<Line>, written: set<string>)
    requires Distinct(keys) && forall k :: k in keys ==> k in req.header
    ensures out == RestLines(req, chunked, keys, already)
    ensures forall k :: k in written <==> k in already || (k in keys && Eligible(req, chunked, k))
  {
    out, written := [], already;
    for i := 0 to |keys|
      invariant out == RestLines(req, chunked, keys[..i], already)
      invariant forall k :: k in written <==> k in already || (k in keys[..i] && Eligible(req, chunked, k))
    {
      var key := keys[i];
      assert keys[..i + 1][..i] == keys[..i];
      assert key !in keys[..i];
      if key in written || EqualFold(key, HOST) || key == HEADER_ORDER_KEY || key == PHEADER_ORDER_KEY
         || (chunked && (EqualFold(key, TE) || EqualFold(key, CL))) {
        continue;
      }
      out := WriteLines(out, key, req.header[key]);
      written := written + {key};
    }
    assert keys[..|keys|] == keys;
  }

  /** `keys` is the header map's iteration order. The entries named by the header order come
      first and in that order, and every name carries exactly its expected values. */
  method WriteHeadersInOrder(req: Request, keys: seq<string>) returns (out: seq<Line>)
    requires Distinct(keys) && forall k :: k in keys <==> k in req.header
    ensures OrderedLines(req, UseChunked(req), OrderOf(req)) <= out
    ensures forall k :: ValuesOf(out, k) == Expected(req, UseChunked(req), k)
  {
    hide EqualFold, UseChunked, OrderOf, ExpectedTimes, ValuesOf, OrderedLines, RestLines, Occurrences, Marked, Decimal;
    NamesApart(CL);
    var chunked, order := UseChunked(req), OrderOf(req);
    var ordered, written := WriteOrdered(req, chunked, order);
    ghost var already := written;
    var rest;
    rest, written := WriteRest(req, chunked, keys, written);
    var last: seq<Line> := [];
    if CL !in written && !chunked {
      if CL in req.header {
        assert false;  // the loop over the map has written it
      } else if req.contentLength > 0 {
        last := WriteLines(last, CL, [Decimal(req.contentLength)]);
      } else if req.contentLength == 0 && req.hasBody {
        last := WriteLines(last, CL, ["0"]);
      }
    }
    if TE !in written && chunked {
      last := WriteLines(last, TE, ["chunked"]);
    }
    if CONNECTION !in req.header {
      last := WriteLines(last, CONNECTION, ["keep-alive"]);
    }
    assert last == LastLines(req, chunked, CL !in written, TE !in written);
    out := ordered + rest + last;
    assert forall k :: Recorded(req, chunked, already, written, k, Occurrences(order, k));
    forall k
      ensures ValuesOf(out, k) == Expected(req, chunked, k)
    {
      HeadValues(req, chunked, order, keys, already, written, k);
    }
  }

  // ----- Counting values -----

  lemma {:induction false} ValuesOfConcat(a: seq<Line>, b: seq<Line>, k: string)
    ensures ValuesOf(a + b, k) == ValuesOf(a, k) + ValuesOf(b, k)
  {
    if b == [] {
      assert a + b == a;
    } else {
      assert (a + b)[..|a + b| - 1] == a + b[..|b| - 1];
      ValuesOfConcat(a, b[..|b| - 1], k);
    }
  }

  lemma {:induction false} ValuesOfLines(name: string, values: seq<string>, k: string)
    ensures ValuesOf(LinesOf(name, values), k) == if k == name then values else []
  {
    if values != [] {
      ValuesOfLines(name, values[..|values| - 1], k);
      assert LinesOf(name, values)[..|values| - 1] == LinesOf(name, values[..|values| - 1]);
    }
  }

  lemma SnocValues(a: seq<Line>, name: string, values: seq<string>, k: string)
    ensures ValuesOf(a + LinesOf(name, values), k) == ValuesOf(a, k) + if k == name then values else []
  {
    ValuesOfConcat(a, LinesOf(name, values), k);
    ValuesOfLines(name, values, k);
  }

  lemma {:induction false} OrderedValues(req: Request, chunked: bool, order: seq<string>, k: string)
    ensures ValuesOf(OrderedLines(req, chunked, order), k) == Repeat(EntryValues(req, chunked, k), Occurrences(order, k))
  {
    hide EntryValues, Canonical;
    if order == [] {
      assert Repeat(EntryValues(req, chunked, k), 0) == [];
    } else {
      var init, name := order[..|order| - 1], Canonical(order[|order| - 1]);
      OrderedValues(req, chunked, init, k);
      OrderedStep(req, chunked, OrderedLines(req, chunked, init), name, Occurrences(init, k), k);
    }
  }

  lemma OrderedStep(req: Request, chunked: bool, before: seq<Line>, name: string, n: nat, k: string)
    requires ValuesOf(before, k) == Repeat(EntryValues(req, chunked, k), n)
    ensures ValuesOf(before + LinesOf(name, EntryValues(req, chunked, name)), k)
         == Repeat(EntryValues(req, chunked, k), n + if name == k then 1 else 0)
  {
    SnocValues(before, name, EntryValues(req, chunked, name), k);
    RepeatSnoc(EntryValues(req, chunked, k), n, name == k);
  }

  lemma RepeatSnoc(v: seq<string>, n: nat, more: bool)
    ensures Repeat(v, n) + (if more then v else []) == Repeat(v, n + if more then 1 else 0)
  {}

  lemma {:induction false} RestValues(req: Request, chunked: bool, keys: seq<string>, skip: set<string>, k: string)
    requires Distinct(keys)
    ensures ValuesOf(RestLines(req, chunked, keys, skip), k)
         == if k in keys && Eligible(req, chunked, k) && k !in skip then req.header[k] else []
  {
    if keys != [] {
      var init, name := keys[..|keys| - 1], keys[|keys| - 1];
      RestValues(req, chunked, init, skip, k);
      assert keys == init + [name] && name !in init;
      hide Eligible, ValuesOf, LinesOf, Distinct;
      if Eligible(req, chunked, name) && name !in skip {
        SnocValues(RestLines(req, chunked, init, skip), name, req.header[name], k);
      } else {
        assert RestLines(req, chunked, keys, skip) == RestLines(req, chunked, init, skip);
      }
    }
  }

  function LastLines(req: Request, chunked: bool, needLength: bool, needCoding: bool): seq<Line> {
    LinesOf(CL, if needLength && !chunked then LengthValues(req) else [])
    + LinesOf(TE, if needCoding && chunked then ["chunked"] else [])
    + LinesOf(CONNECTION, if CONNECTION !in req.header then ["keep-alive"] else [])
  }

  function LastExpected(req: Request, chunked: bool, needLength: bool, needCoding: bool, k: string): seq<string> {
    if k == CL then if needLength && !chunked then LengthValues(req) else []
    else if k == TE then if needCoding && chunked then ["chunked"] else []
    else if k == CONNECTION && CONNECTION !in req.header then ["keep-alive"] else []
  }

  lemma LastValues(req: Request, chunked: bool, needLength: bool, needCoding: bool, k: string)
    ensures ValuesOf(LastLines(req, chunked, needLength, needCoding), k)
         == LastExpected(req, chunked, needLength, needCoding, k)
  {
    var lengths := if needLength && !chunked then LengthValues(req) else [];
    var codings := if needCoding && chunked then ["chunked"] else [];
    var connections := if CONNECTION !in req.header then ["keep-alive"] else [];
    hide ValuesOf, LinesOf, LengthValues;
    ThreeNames(lengths, codings, connections, k);
  }

  lemma ThreeNames(lengths: seq<string>, codings: seq<string>, connections: seq<string>, k: string)
    ensures ValuesOf(LinesOf(CL, lengths) + LinesOf(TE, codings) + LinesOf(CONNECTION, connections), k)
         == if k == CL then lengths else if k == TE then codings else if k == CONNECTION then connections else []
  {
    hide ValuesOf, LinesOf;
    SnocValues(LinesOf(CL, lengths) + LinesOf(TE, codings), CONNECTION, connections, k);
    SnocValues(LinesOf(CL, lengths), TE, codings, k);
    ValuesOfLines(CL, lengths, k);
  }

  /** The reserved map keys and the special names are never mistaken for one another. */
  lemma NamesApart(k: string)
    requires k == HEADER_ORDER_KEY || k == PHEADER_ORDER_KEY || k == CONNECTION || k == CL || k == TE
    ensures !EqualFold(k, HOST)
    ensures EqualFold(k, CL) <==> k == CL
    ensures EqualFold(k, TE) <==> k == TE
  {
    assert ToLower(PHEADER_ORDER_KEY)[0] == 'p' && ToLower(CL)[0] == 'c';
    assert |ToLower(k)| == |k| && |ToLower(HOST)| == 4 && |ToLower(CL)| == 14 && |ToLower(TE)| == 17;
  }

  /** What the writer's `written` map says about `k` after an order that names it `n` times
      and after the rest. */
  predicate Recorded(req: Request, chunked: bool, already: set<string>, written: set<string>, k: string, n: nat) {
    && (k in already <==> n > 0 && Marked(req, chunked, k))
    && (k in written <==> k in already || Eligible(req, chunked, k))
  }

  /** The three parts of the head add up to the expected values. */
  lemma HeadValues(req: Request, chunked: bool, order: seq<string>, keys: seq<string>,
                   already: set<string>, written: set<string>, k: string)
    requires Distinct(keys) && (k in keys <==> k in req.header)
    requires forall name :: Recorded(req, chunked, already, written, name, Occurrences(order, name))
    ensures ValuesOf(OrderedLines(req, chunked, order) + RestLines(req, chunked, keys, already)
                     + LastLines(req, chunked, CL !in written, TE !in written), k)
         == ExpectedTimes(req, chunked, k, Occurrences(order, k))
  {
    var n := Occurrences(order, k);
    assert Recorded(req, chunked, already, written, k, n);
    RecordedMeans(req, chunked, already, written, k, n);
    hide *;
    var ordered, rest := OrderedLines(req, chunked, order), RestLines(req, chunked, keys, already);
    var last := LastLines(req, chunked, CL !in written, TE !in written);
    ValuesOfConcat(ordered + rest, last, k);
    ValuesOfConcat(ordered, rest, k);
    OrderedValues(req, chunked, order, k);
    RestValues(req, chunked, keys, already, k);
    LastValues(req, chunked, CL !in written, TE !in written, k);
    if k == CL || k == TE {
      LengthAndCoding(req, chunked, k, n, k in already, k in written);
    } else {
      if n > 0 { OccurringNames(order, k); }
      OtherNames(req, chunked, k, n, k in already);
    }
  }

  /** What the record of `k` means for its three parts. */
  lemma RecordedMeans(req: Request, chunked: bool, already: set<string>, written: set<string>, k: string, n: nat)
    requires Recorded(req, chunked, already, written, k, n)
    ensures k in already <==> n > 0 && Marked(req, chunked, k)
    ensures k in written <==> k in already || Eligible(req, chunked, k)
    ensures Eligible(req, chunked, k) ==> k in req.header
    ensures LastExpected(req, chunked, CL !in written, TE !in written, k)
         == if k == CL || k == TE then LastExpected(req, chunked, k !in written, k !in written, k)
            else if k == CONNECTION && CONNECTION !in req.header then ["keep-alive"] else []
  {
    hide Marked, EqualFold, LengthValues;
  }

  lemma LengthAndCoding(req: Request, chunked: bool, k: string, n: nat, inAlready: bool, inWritten: bool)
    requires k == CL || k == TE
    requires inAlready <==> n > 0 && Marked(req, chunked, k)
    requires inWritten <==> inAlready || Eligible(req, chunked, k)
    ensures Repeat(EntryValues(req, chunked, k), n)
            + (if Eligible(req, chunked, k) && !inAlready then req.header[k] else [])
            + LastExpected(req, chunked, !inWritten, !inWritten, k)
         == ExpectedTimes(req, chunked, k, n)
  {
    RepeatBasics(EntryValues(req, chunked, k), n);
    NamesApart(k);
  }

  lemma OtherNames(req: Request, chunked: bool, k: string, n: nat, inAlready: bool)
    requires k != CL && k != TE
    requires inAlready <==> n > 0 && Marked(req, chunked, k)
    requires n > 0 ==> !EqualFold(k, CL) && !EqualFold(k, TE)
    ensures Repeat(EntryValues(req, chunked, k), n)
            + (if Eligible(req, chunked, k) && !inAlready then req.header[k] else [])
            + (if k == CONNECTION && CONNECTION !in req.header then ["keep-alive"] else [])
         == ExpectedTimes(req, chunked, k, n)
  {
    hide EqualFold;
    RepeatBasics(EntryValues(req, chunked, k), n);
    if k == HEADER_ORDER_KEY || k == PHEADER_ORDER_KEY || k == CONNECTION { NamesApart(k); }
  }

  lemma {:induction false} RepeatBasics(v: seq<string>, n: nat)
    ensures Repeat(v, 1) == v
    ensures v == [] ==> Repeat(v, n) == []
  {
    assert Repeat(v, 1) == Repeat(v, 0) + v;
    if n > 0 { RepeatBasics(v, n - 1); }
  }

  /** Names that fold to a special one but are spelled differently never occur in an order. */
  lemma {:induction false} OccurringNames(order: seq<string>, k: string)
    requires Occurrences(order, k) > 0
    ensures EqualFold(k, CL) ==> k == CL
    ensures EqualFold(k, TE) ==> k == TE
  {
    if Canonical(order[|order| - 1]) == k {
      SpecialNames(order[|order| - 1]);
    } else {
      OccurringNames(order[..|order| - 1], k);
    }
  }

  // ----- What it means on the wire -----

  /** All values written under any spelling of `name`. */
  function FoldedValuesOf(out: seq<Line>, name: string): seq<string> {
    if out == [] then [] else
      FoldedValuesOf(out[..|out| - 1], name)
      + if EqualFold(out[|out| - 1].name, name) then [out[|out| - 1].value] else []
  }

  lemma {:induction false} WrittenNameHasValue(out: seq<Line>, i: nat)
    requires i < |out|
    ensures ValuesOf(out, out[i].name) != []
  {
    if i < |out| - 1 {
      WrittenNameHasValue(out[..|out| - 1], i);
    }
  }

  /** When only one spelling of a name is written, folding changes nothing. */
  lemma {:induction false} OneSpelling(out: seq<Line>, name: string)
    requires forall i :: 0 <= i < |out| && EqualFold(out[i].name, name) ==> out[i].name == name
    ensures FoldedValuesOf(out, name) == ValuesOf(out, name)
  {
    hide EqualFold;
    if out != [] {
      assert out[|out| - 1].name == name ==> EqualFold(out[|out| - 1].name, name) by { FoldReflexive(name); }
      OneSpelling(out[..|out| - 1], name);
    }
  }

  lemma FoldReflexive(name: string)
    ensures EqualFold(name, name)
  {}

  lemma {:induction false} TwoSpellings(out: seq<Line>, name: string, other: string)
    requires other != name && EqualFold(other, name)
    ensures |ValuesOf(out, name)| + |ValuesOf(out, other)| <= |FoldedValuesOf(out, name)|
  {
    FoldReflexive(name);
    hide EqualFold;
    if out != [] {
      TwoSpellings(out[..|out| - 1], name, other);
    }
  }

  /** A chunked request carries no Content-Length in any spelling, and exactly one
      Transfer-Encoding unless the header order repeats it. */
  lemma ChunkedOnTheWire(req: Request, out: seq<Line>)
    requires UseChunked(req)
    requires forall k :: ValuesOf(out, k) == Expected(req, true, k)
    ensures FoldedValuesOf(out, CL) == []
    ensures Occurrences(OrderOf(req), TE) <= 1 <==> FoldedValuesOf(out, TE) == ["chunked"]
  {
    hide UseChunked, OrderOf;
    NamesApart(CL);
    NamesApart(TE);
    forall i | 0 <= i < |out|
      ensures EqualFold(out[i].name, TE) ==> out[i].name == TE
      ensures EqualFold(out[i].name, CL) ==> out[i].name == CL
    {
      WrittenNameHasValue(out, i);
      assert ValuesOf(out, out[i].name) == Expected(req, true, out[i].name);
    }
    OneSpelling(out, CL);
    OneSpelling(out, TE);
    assert ValuesOf(out, CL) == Expected(req, true, CL) == [];
    assert ValuesOf(out, TE) == Expected(req, true, TE);
    var n := Occurrences(OrderOf(req), TE);
    RepeatLength(["chunked"], n);
    RepeatBasics(["chunked"], n);
  }

  lemma {:induction false} RepeatLength(v: seq<string>, n: nat)
    ensures |Repeat(v, n)| == n * |v|
  {
    if n > 0 { RepeatLength(v, n - 1); }
  }

  predicate NoOtherSpelling(req: Request) {
    forall k :: k in req.header && EqualFold(k, CL) && k != CL ==> req.header[k] == []
  }

  /** Nothing is stored under another spelling of Content-Length, and the order does not make
      the writer repeat the length. */
  predicate LengthIsPlain(req: Request) {
    NoOtherSpelling(req) && (Occurrences(OrderOf(req), CL) <= 1 || LengthValues(req) == [])
  }

  /** Without chunking the lengths on the wire, under every spelling, are exactly the request's
      own, each once, if and only if no header is stored under another spelling of
      Content-Length and the order does not name Content-Length twice. */
  lemma LengthOnTheWire(req: Request, out: seq<Line>)
    requires !UseChunked(req)
    requires forall k :: ValuesOf(out, k) == Expected(req, false, k)
    ensures FoldedValuesOf(out, CL) == LengthValues(req) <==> LengthIsPlain(req)
  {
    OwnSpelling(req);
    hide UseChunked, OrderOf, LengthValues, EqualFold, ValuesOf, FoldedValuesOf, Expected;
    assert ValuesOf(out, CL) == Expected(req, false, CL);
    if NoOtherSpelling(req) {
      NothingElse(req, out);
      OneSpelling(out, CL);
    } else {
      var k :| k in req.header && EqualFold(k, CL) && k != CL && req.header[k] != [];
      TwoSpellings(out, CL, k);
      OtherSpelling(req, k);
      assert ValuesOf(out, k) == Expected(req, false, k);
    }
  }

  lemma NothingElse(req: Request, out: seq<Line>)
    requires NoOtherSpelling(req) && forall k :: ValuesOf(out, k) == Expected(req, false, k)
    ensures forall i :: 0 <= i < |out| && EqualFold(out[i].name, CL) ==> out[i].name == CL
  {
    hide EqualFold, ValuesOf, Expected;
    forall i | 0 <= i < |out| && EqualFold(out[i].name, CL)
      ensures out[i].name == CL
    {
      var k := out[i].name;
      WrittenNameHasValue(out, i);
      assert ValuesOf(out, k) == Expected(req, false, k);
      if k != CL { OtherSpelling(req, k); }
    }
  }

  /** Under its own name the length goes out as often as the order says, at least once. */
  lemma OwnSpelling(req: Request)
    ensures var v, n := LengthValues(req), Occurrences(OrderOf(req), CL);
            && |Expected(req, false, CL)| == (if n == 0 then 1 else n) * |v|
            && (n <= 1 || v == [] ==> Expected(req, false, CL) == v)
            && |Expected(req, false, CL)| >= |v|
            && (n > 1 && v != [] ==> |Expected(req, false, CL)| > |v|)
  {
    NamesApart(CL);
    hide OrderOf, LengthValues, EqualFold;
    var v, n := LengthValues(req), Occurrences(OrderOf(req), CL);
    RepeatBasics(v, n);
    RepeatLength(v, if n == 0 then 1 else n);
    if n > 1 { MultiplesGrow(2, n, |v|); }
  }

  const LOWER_CL := "content-length"

  lemma LowerIsAnotherSpelling()
    ensures EqualFold(LOWER_CL, CL) && LOWER_CL != CL
  {
    assert ToLower(CL) == LOWER_CL == ToLower(LOWER_CL);
  }

  /** One way to fail: a header stored as "content-length" goes out beside the length that the
      writer adds itself. */
  lemma OtherSpellingDuplicates(out: seq<Line>)
    requires forall k :: ValuesOf(out, k) == Expected(Request(map[LOWER_CL := ["7"]], 5, true, false), false, k)
    ensures var req := Request(map[LOWER_CL := ["7"]], 5, true, false);
            !UseChunked(req) && LengthValues(req) == ["5"] && |FoldedValuesOf(out, CL)| >= 2
  {
    var req := Request(map[LOWER_CL := ["7"]], 5, true, false);
    assert Decimal(5) == "5";
    LowerIsAnotherSpelling();
    hide EqualFold, Expected, ValuesOf, FoldedValuesOf, OrderOf, Decimal;
    OtherSpelling(req, LOWER_CL);
    OwnSpelling(req);
    TwoSpellings(out, CL, LOWER_CL);
    assert ValuesOf(out, CL) == Expected(req, false, CL) && ValuesOf(out, LOWER_CL) == Expected(req, false, LOWER_CL);
  }

  lemma TwiceInOrder()
    ensures Occurrences([CL, CL], CL) == 2 && HEADER_ORDER_KEY != CL
  {
    SpecialNamesAreCanonical();
    hide Canonical;
    assert [CL, CL][..1] == [CL] && [CL][..0] == [];
    assert Occurrences([CL], CL) == 1;
  }

  lemma WrittenTwice(req: Request)
    ensures ExpectedTimes(req, false, CL, 2) == LengthValues(req) + LengthValues(req)
  {
    NamesApart(CL);
    hide LengthValues, EqualFold;
    RepeatBasics(LengthValues(req), 1);
  }

  /** The other way: an order that names Content-Length twice sends the length twice. */
  lemma RepeatedOrderDuplicates(out: seq<Line>)
    requires forall k :: ValuesOf(out, k) == Expected(Request(map[HEADER_ORDER_KEY := [CL, CL]], 5, true, false), false, k)
    ensures var req := Request(map[HEADER_ORDER_KEY := [CL, CL]], 5, true, false);
            !UseChunked(req) && NoOtherSpelling(req) && FoldedValuesOf(out, CL) == ["5", "5"]
  {
    var req := Request(map[HEADER_ORDER_KEY := [CL, CL]], 5, true, false);
    TwiceInOrder();
    NamesApart(HEADER_ORDER_KEY);
    assert Decimal(5) == "5";
    assert OrderOf(req) == [CL, CL] && LengthValues(req) == ["5"];
    assert Expected(req, false, CL) == ExpectedTimes(req, false, CL, 2);
    hide Decimal, Occurrences, EqualFold, Expected, ExpectedTimes, ValuesOf, FoldedValuesOf, OrderOf, LengthValues;
    WrittenTwice(req);
    NothingElse(req, out);
    OneSpelling(out, CL);
    assert ValuesOf(out, CL) == Expected(req, false, CL);
  }

  /** A header stored under another spelling of Content-Length is written as it is. */
  lemma OtherSpelling(req: Request, k: string)
    requires EqualFold(k, CL) && k != CL
    ensures Expected(req, false, k) == HeaderValues(req, k)
  {
    hide OrderOf;
    var n := Occurrences(OrderOf(req), k);
    if n > 0 { OccurringNames(OrderOf(req), k); }
    RepeatBasics(HeaderValues(req, k), 1);
    if k == HEADER_ORDER_KEY || k == PHEADER_ORDER_KEY || k == CONNECTION || k == TE { NamesApart(k); }
    assert |ToLower(k)| == |ToLower(CL)| != |ToLower(HOST)|;
  }

  /** A request is chunked exactly when it has a body, no known length, and no length header
      that says one. */
  lemma ChunkedMeans(req: Request)
    ensures UseChunked(req) <==>
              && req.hasBody && !req.noBody && req.contentLength <= 0
              && !(CL in req.header && req.header[CL] != [] && req.header[CL][0] != "")
  {}

  /** How the receiver finds the end of the body: chunked, or by the stored length headers, or
      by the one number that is the body's length, or by "0" for a body that may be empty. */
  lemma FramingIsRight(req: Request, out: seq<Line>)
    requires Occurrences(OrderOf(req), CL) <= 1 && Occurrences(OrderOf(req), TE) <= 1 && NoOtherSpelling(req)
    requires forall k :: ValuesOf(out, k) == Expected(req, UseChunked(req), k)
    ensures var lengths := FoldedValuesOf(out, CL);
            if req.hasBody && !req.noBody && req.contentLength <= 0
               && (CL in req.header && req.header[CL] != [] ==> req.header[CL][0] == "")
            then lengths == [] && FoldedValuesOf(out, TE) == ["chunked"]
            else
              && ValuesOf(out, TE) == HeaderValues(req, TE)
              && (CL in req.header ==> lengths == req.header[CL])
              && (CL !in req.header && req.contentLength > 0 ==> |lengths| == 1 && LeadingNumber(lengths[0], 0) == req.contentLength)
              && (CL !in req.header && req.contentLength == 0 ==> lengths == if req.hasBody then ["0"] else [])
              && (CL !in req.header && req.contentLength < 0 ==> lengths == [])
  {
    ChunkedMeans(req);
    LengthMeans(req);
    hide UseChunked, OrderOf, FoldedValuesOf, EqualFold, LeadingNumber, Occurrences, NoOtherSpelling, LengthValues, ValuesOf, Expected;
    if UseChunked(req) {
      ChunkedOnTheWire(req, out);
    } else {
      LengthOnTheWire(req, out);
      StoredCoding(req);
      assert ValuesOf(out, TE) == Expected(req, false, TE);
    }
  }

  lemma LengthMeans(req: Request)
    ensures var v := LengthValues(req);
            && (CL in req.header ==> v == req.header[CL])
            && (CL !in req.header && req.contentLength > 0 ==> |v| == 1 && LeadingNumber(v[0], 0) == req.contentLength)
            && (CL !in req.header && req.contentLength == 0 ==> v == if req.hasBody then ["0"] else [])
            && (CL !in req.header && req.contentLength < 0 ==> v == [])
  {
    if req.contentLength > 0 {
      DecimalIsRead(req.contentLength, 0, Decimal(req.contentLength));
      hide Decimal, LeadingNumber, Power10;
    }
  }

  lemma StoredCoding(req: Request)
    ensures Expected(req, false, TE) == HeaderValues(req, TE)
  {
    NamesApart(TE);
    hide EqualFold, OrderOf, Occurrences;
  }

  /** Every other header: never a Host, the stored values once each unless the order repeats the
      name, a Connection of its own when none is stored, and nothing that is not stored. */
  lemma OtherHeadersOnTheWire(req: Request, chunked: bool, out: seq<Line>, k: string)
    requires forall name :: ValuesOf(out, name) == Expected(req, chunked, name)
    ensures EqualFold(k, HOST) ==> ValuesOf(out, k) == []
    ensures !EqualFold(k, HOST) && !EqualFold(k, CL) && !EqualFold(k, TE) && k != HEADER_ORDER_KEY && k != PHEADER_ORDER_KEY ==>
              if k !in req.header then ValuesOf(out, k) == (if k == "Connection" then ["keep-alive"] else [])
              else if Occurrences(OrderOf(req), k) <= 1 then ValuesOf(out, k) == req.header[k]
              else |ValuesOf(out, k)| == Occurrences(OrderOf(req), k) * |req.header[k]|
    ensures (k == HEADER_ORDER_KEY || k == PHEADER_ORDER_KEY) && Occurrences(OrderOf(req), k) == 0 ==> ValuesOf(out, k) == []
  {
    var n := Occurrences(OrderOf(req), k);
    if k == HEADER_ORDER_KEY || k == PHEADER_ORDER_KEY { NamesApart(k); }
    hide EqualFold, OrderOf, Occurrences, ValuesOf;
    assert ValuesOf(out, k) == ExpectedTimes(req, chunked, k, n);
    RepeatBasics(HeaderValues(req, k), if n == 0 then 1 else n);
    RepeatLength(HeaderValues(req, k), n);
  }

  /** The wanted order is the stored one if there is one, and its entries go out one after the
      other, each under its canonical name. */
  lemma OrderIsKept(req: Request, chunked: bool, a: seq<string>, b: seq<string>, e: string)
    ensures HEADER_ORDER_KEY in req.header && req.header[HEADER_ORDER_KEY] != [] ==> OrderOf(req) == req.header[HEADER_ORDER_KEY]
    ensures OrderedLines(req, chunked, a + b) == OrderedLines(req, chunked, a) + OrderedLines(req, chunked, b)
    ensures forall line :: line in OrderedLines(req, chunked, [e]) ==> line.name == Canonical(e)
  {
    OrderedConcat(req, chunked, a, b);
    hide EntryValues, Canonical;
    assert [e][..0] == [];
    assert OrderedLines(req, chunked, [e]) == [] + LinesOf(Canonical(e), EntryValues(req, chunked, Canonical(e)));
  }

  lemma {:induction false} OrderedConcat(req: Request, chunked: bool, a: seq<string>, b: seq<string>)
    ensures OrderedLines(req, chunked, a + b) == OrderedLines(req, chunked, a) + OrderedLines(req, chunked, b)
  {
    hide EntryValues, Canonical, LinesOf;
    if b == [] {
      assert a + b == a;
    } else {
      assert (a + b)[..|a + b| - 1] == a + b[..|b| - 1];
      OrderedConcat(req, chunked, a, b[..|b| - 1]);
    }
  }
}
