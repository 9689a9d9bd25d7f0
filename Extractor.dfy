/** `findImageUrlInObject`: a recursive search of an arbitrarily shaped JSON
    reply for something that looks like an image reference. The two regular
    expressions it uses are written out as scanners over the trimmed text,
    each specified by the set of matches the expression admits and the match
    a backtracking engine reports first. */
module Extractor {
  import opened Wrappers
  import opened Text
  import opened Json

  // ---------------------------------------------------------------------
  // The pieces of the two regular expressions

  /** `https?:\/\/` under the `i` flag, `L` characters long, at position `b`. */
  predicate IsSchemeAt(t: string, b: nat, L: nat)
  {
    && (L == 7 || L == 8)
    && b + L <= |t|
    && EqualsIgnoreCase(t[b..b + L], if L == 8 then "https://" else "http://")
  }

  /** `[^\s"'<>]` (`md` false) and `[^\s"'<>)]` (`md` true). */
  predicate UrlChar(c: char, md: bool)
  {
    !IsWhite(c) && c != '"' && c != '\'' && c != '<' && c != '>' && (!md || c != ')')
  }

  /** `https?:\/\/[^...]+` matched greedily from `b` to `e` with an `L`-character scheme. */
  predicate UrlMatchWith(t: string, b: nat, L: nat, e: nat, md: bool)
  {
    && IsSchemeAt(t, b, L)
    && b + L < e <= |t|
    && (forall k :: b + L <= k < e ==> UrlChar(t[k], md))
    && (e == |t| || !UrlChar(t[e], md))
  }

  predicate UrlMatch(t: string, b: nat, e: nat, md: bool)
  {
    UrlMatchWith(t, b, 7, e, md) || UrlMatchWith(t, b, 8, e, md)
  }

  /** `!\[.*?\]\((https?:\/\/[^\s"'<>)]+)\)` matched at `i`, the `]` at `j`, the `)` at `e`;
      the captured group is `t[j + 2..e]`. */
  predicate MdMatch(t: string, i: nat, j: nat, e: nat)
  {
    && i + 2 <= j && j + 2 <= e < |t|
    && t[i] == '!' && t[i + 1] == '['
    && (forall k :: i + 2 <= k < j ==> !IsLineTerminator(t[k]))
    && t[j] == ']' && t[j + 1] == '('
    && UrlMatch(t, j + 2, e, true)
    && t[e] == ')'
  }

  /** Whether some image reference starts the text: an `http(s)://` scheme in any case, or `data:image`. */
  predicate IsMediaRef(u: string)
  {
    IsSchemeAt(u, 0, 7) || IsSchemeAt(u, 0, 8) || StartsWith(u, "data:image")
  }

  // ---------------------------------------------------------------------
  // Scanners

  /** The scheme length the regex engine settles on at `b` (`s?` is greedy), 0 if none. */
  function SchemeLen(t: string, b: nat): (L: nat)
    ensures L != 0 ==> IsSchemeAt(t, b, L)
    ensures L == 0 ==> !IsSchemeAt(t, b, 7) && !IsSchemeAt(t, b, 8)
    ensures L != 0 ==> forall L' :: IsSchemeAt(t, b, L') ==> L' == L
  {
    SchemesExclusive(t, b);
    if IsSchemeAt(t, b, 8) then 8
    else if IsSchemeAt(t, b, 7) then 7
    else 0
  }

  /** `http://` and `https://` cannot both start at the same place: the fifth character differs. */
  lemma SchemesExclusive(t: string, b: nat)
    ensures !(IsSchemeAt(t, b, 7) && IsSchemeAt(t, b, 8))
  {
    if IsSchemeAt(t, b, 8) {
      assert t[b..b + 8][4] == t[b + 4];
      assert LowerChar(t[b + 4]) == 's';
    }
    if IsSchemeAt(t, b, 7) {
      assert t[b..b + 7][4] == t[b + 4];
      assert LowerChar(t[b + 4]) == ':';
    }
  }

  /** End of the longest run of URL characters starting at `k`. */
  function RunEnd(t: string, k: nat, md: bool): (e: nat)
    requires k <= |t|
    ensures k <= e <= |t|
    ensures forall m :: k <= m < e ==> UrlChar(t[m], md)
    ensures e == |t| || !UrlChar(t[e], md)
    decreases |t| - k
  {
    if k == |t| || !UrlChar(t[k], md) then k else RunEnd(t, k + 1, md)
  }

  /** A run of URL characters that cannot be extended has only one possible end. */
  lemma MaximalRunUnique(t: string, k: nat, e1: nat, e2: nat, md: bool)
    requires k <= e1 <= |t| && k <= e2 <= |t|
    requires forall m :: k <= m < e1 ==> UrlChar(t[m], md)
    requires forall m :: k <= m < e2 ==> UrlChar(t[m], md)
    requires e1 == |t| || !UrlChar(t[e1], md)
    requires e2 == |t| || !UrlChar(t[e2], md)
    ensures e1 == e2
  {
  }

  /** Where a URL starting at `b` ends, if one starts there. */
  function UrlEnd(t: string, b: nat, md: bool): (r: Option<nat>)
    ensures r.Some? ==> UrlMatch(t, b, r.value, md)
    ensures r.Some? ==> forall e :: UrlMatch(t, b, e, md) ==> e == r.value
    ensures r.None? ==> forall e :: !UrlMatch(t, b, e, md)
  {
    var L := SchemeLen(t, b);
    if L == 0 then None
    else
      var e := RunEnd(t, b + L, md);
      if e == b + L then None
      else
        assert UrlMatchWith(t, b, L, e, md);
        assert forall e' :: UrlMatch(t, b, e', md) ==> e' == e by {
          forall e': nat | UrlMatch(t, b, e', md) ensures e' == e {
            MaximalRunUnique(t, b + L, e, e', md);
          }
        }
        Some(e)
  }

  /** `\]\(` then a URL then `\)` at `j`. */
  function MdClose(t: string, j: nat): (r: Option<nat>)
    ensures r.Some? ==> j + 2 <= r.value < |t| && t[j] == ']' && t[j + 1] == '('
                        && UrlMatch(t, j + 2, r.value, true) && t[r.value] == ')'
    ensures r.None? ==> forall e :: !(j + 2 <= e < |t| && t[j] == ']' && t[j + 1] == '('
                                      && UrlMatch(t, j + 2, e, true) && t[e] == ')')
  {
    if j + 1 < |t| && t[j] == ']' && t[j + 1] == '(' then
      match UrlEnd(t, j + 2, true)
      case Some(e) => if e < |t| && t[e] == ')' then Some(e) else None
      case None => None
    else None
  }

  /** A markdown match: start, position of `]`, position of the closing `)`. */
  datatype MdSpan = MdSpan(start: nat, close: nat, end: nat)

  /** The lazy `.*?` of a markdown match that started at `i`: try `]` at `j`, `j + 1`, ... */
  function MdLazy(t: string, i: nat, j: nat): (r: Option<MdSpan>)
    requires i + 2 <= j <= |t| && t[i] == '!' && t[i + 1] == '['
    requires forall k :: i + 2 <= k < j ==> !IsLineTerminator(t[k])
    ensures r.Some? ==> r.value.start == i && j <= r.value.close
                        && MdMatch(t, i, r.value.close, r.value.end)
    ensures r.Some? ==> forall j', e :: j <= j' < r.value.close ==> !MdMatch(t, i, j', e)
    ensures r.None? ==> forall j', e :: j <= j' ==> !MdMatch(t, i, j', e)
    decreases |t| - j
  {
    if j == |t| then None
    else match MdClose(t, j)
      case Some(e) =>
        MdMatchAt(t, i, j, e);
        Some(MdSpan(i, j, e))
      case None =>
        NoMdCloseAt(t, i, j);
        if IsLineTerminator(t[j]) then
          NoMdPastTerminator(t, i, j);
          None
        else
          var r := MdLazy(t, i, j + 1);
          MdLazyStep(t, i, j, r);
          r
  }

  /** What the search from `j + 1` found is also what the search from `j` finds, when
      no match closes its brackets at `j`. */
  lemma MdLazyStep(t: string, i: nat, j: nat, r: Option<MdSpan>)
    requires forall e :: !MdMatch(t, i, j, e)
    requires r.Some? ==> j + 1 <= r.value.close
    requires r.Some? ==> forall j', e :: j + 1 <= j' < r.value.close ==> !MdMatch(t, i, j', e)
    requires r.None? ==> forall j', e :: j + 1 <= j' ==> !MdMatch(t, i, j', e)
    ensures r.Some? ==> forall j', e :: j <= j' < r.value.close ==> !MdMatch(t, i, j', e)
    ensures r.None? ==> forall j', e :: j <= j' ==> !MdMatch(t, i, j', e)
  {
    if r.Some? {
      forall j', e | j <= j' < r.value.close ensures !MdMatch(t, i, j', e) {
        if j' != j {
          assert j + 1 <= j' < r.value.close;
        }
      }
    } else {
      forall j', e | j <= j' ensures !MdMatch(t, i, j', e) {
        if j' != j {
          assert j + 1 <= j';
        }
      }
    }
  }

  /** An opening `![` at `i`, a text without line terminators, and `](url)` at `j` make a match. */
  lemma MdMatchAt(t: string, i: nat, j: nat, e: nat)
    requires i + 2 <= j && j + 2 <= e < |t|
    requires t[i] == '!' && t[i + 1] == '['
    requires forall k :: i + 2 <= k < j ==> !IsLineTerminator(t[k])
    requires t[j] == ']' && t[j + 1] == '('
    requires UrlMatch(t, j + 2, e, true) && t[e] == ')'
    ensures MdMatch(t, i, j, e)
  {
  }

  /** Without `](url)` at `j`, no markdown match closes its brackets there. */
  lemma NoMdCloseAt(t: string, i: nat, j: nat)
    requires MdClose(t, j).None?
    ensures forall e :: !MdMatch(t, i, j, e)
  {
  }

  /** The lazy `.*?` cannot step over a line terminator. */
  lemma NoMdPastTerminator(t: string, i: nat, j: nat)
    requires i + 2 <= j < |t| && IsLineTerminator(t[j])
    ensures forall j', e :: j < j' ==> !MdMatch(t, i, j', e)
  {
    forall j', e | j < j' ensures !MdMatch(t, i, j', e) {
      assert i + 2 <= j < j' && IsLineTerminator(t[j]);
    }
  }

  /** The leftmost markdown match at or after `i`. */
  function MdScan(t: string, i: nat): (r: Option<MdSpan>)
    requires i <= |t|
    ensures r.Some? ==> i <= r.value.start && MdMatch(t, r.value.start, r.value.close, r.value.end)
    ensures r.Some? ==> forall i', j', e :: i <= i' && MdMatch(t, i', j', e) ==>
                          r.value.start < i' || (r.value.start == i' && r.value.close <= j')
    ensures r.None? ==> forall i', j', e :: i <= i' ==> !MdMatch(t, i', j', e)
    decreases |t| - i
  {
    if i + 1 >= |t| then None
    else if t[i] == '!' && t[i + 1] == '[' then
      match MdLazy(t, i, i + 2)
      case Some(sp) =>
        MdScanHit(t, i, sp);
        Some(sp)
      case None =>
        var r := MdScan(t, i + 1);
        MdScanStep(t, i, r);
        r
    else
      var r := MdScan(t, i + 1);
      MdScanStep(t, i, r);
      r
  }

  /** The lazy search's match at `i` is the leftmost from `i` on, with the earliest `]`. */
  lemma MdScanHit(t: string, i: nat, sp: MdSpan)
    requires sp.start == i && MdMatch(t, i, sp.close, sp.end)
    requires forall j', e :: i + 2 <= j' < sp.close ==> !MdMatch(t, i, j', e)
    ensures forall i', j', e :: i <= i' && MdMatch(t, i', j', e) ==> i < i' || (i == i' && sp.close <= j')
  {
  }

  /** What the scan from `i + 1` found is also what the scan from `i` finds, when no
      match starts at `i`. */
  lemma MdScanStep(t: string, i: nat, r: Option<MdSpan>)
    requires forall j', e :: !MdMatch(t, i, j', e)
    requires r.Some? ==> i + 1 <= r.value.start
    requires r.Some? ==> forall i', j', e :: i + 1 <= i' && MdMatch(t, i', j', e) ==>
                           r.value.start < i' || (r.value.start == i' && r.value.close <= j')
    requires r.None? ==> forall i', j', e :: i + 1 <= i' ==> !MdMatch(t, i', j', e)
    ensures r.Some? ==> forall i', j', e :: i <= i' && MdMatch(t, i', j', e) ==>
                          r.value.start < i' || (r.value.start == i' && r.value.close <= j')
    ensures r.None? ==> forall i', j', e :: i <= i' ==> !MdMatch(t, i', j', e)
  {
    forall i', j', e | i <= i' && MdMatch(t, i', j', e) ensures i + 1 <= i' {
      if i' == i {
        assert false;
      }
    }
  }

  /** A generic URL match: where it starts and ends. */
  datatype UrlSpan = UrlSpan(start: nat, end: nat)

  /** The leftmost match of `(https?:\/\/[^\s"'<>]+)` at or after `i`. */
  function UrlScan(t: string, i: nat): (r: Option<UrlSpan>)
    requires i <= |t|
    ensures r.Some? ==> i <= r.value.start && UrlMatch(t, r.value.start, r.value.end, false)
    ensures r.Some? ==> forall b, e :: i <= b < r.value.start ==> !UrlMatch(t, b, e, false)
    ensures r.None? ==> forall b, e :: i <= b ==> !UrlMatch(t, b, e, false)
    decreases |t| - i
  {
    if i == |t| then
      assert forall b, e :: i <= b ==> !UrlMatch(t, b, e, false) by {
        forall b, e | i <= b ensures !UrlMatch(t, b, e, false) {
          assert !IsSchemeAt(t, b, 7) && !IsSchemeAt(t, b, 8);
        }
      }
      None
    else match UrlEnd(t, i, false)
      case Some(e) => Some(UrlSpan(i, e))
      case None =>
        var r := UrlScan(t, i + 1);
        UrlScanStep(t, i, r);
        r
  }

  /** What the scan from `i + 1` found is also what the scan from `i` finds, when no
      URL starts at `i`. */
  lemma UrlScanStep(t: string, i: nat, r: Option<UrlSpan>)
    requires forall e :: !UrlMatch(t, i, e, false)
    requires r.Some? ==> i + 1 <= r.value.start
    requires r.Some? ==> forall b, e :: i + 1 <= b < r.value.start ==> !UrlMatch(t, b, e, false)
    requires r.None? ==> forall b, e :: i + 1 <= b ==> !UrlMatch(t, b, e, false)
    ensures r.Some? ==> forall b, e :: i <= b < r.value.start ==> !UrlMatch(t, b, e, false)
    ensures r.None? ==> forall b, e :: i <= b ==> !UrlMatch(t, b, e, false)
  {
    forall b, e | i <= b && UrlMatch(t, b, e, false) ensures i + 1 <= b {
      if b == i {
        assert false;
      }
    }
  }

  /** A captured URL starts with its scheme. */
  lemma CaptureIsMediaRef(t: string, b: nat, e: nat, md: bool)
    requires UrlMatch(t, b, e, md)
    ensures IsMediaRef(t[b..e]) && t[b..e] != []
  {
    var u := t[b..e];
    if UrlMatchWith(t, b, 7, e, md) {
      assert u[0..7] == t[b..b + 7];
    } else {
      assert u[0..8] == t[b..b + 8];
    }
  }

  lemma PrefixIsMediaRef(t: string)
    requires StartsWith(t, "http://") || StartsWith(t, "https://")
    ensures IsMediaRef(t)
  {
    if StartsWith(t, "http://") {
      assert t[0..7] == "http://";
      assert IsSchemeAt(t, 0, 7);
    } else {
      assert t[0..8] == "https://";
      assert IsSchemeAt(t, 0, 8);
    }
  }

  // ---------------------------------------------------------------------
  // The string rules

  /** The whole trimmed text counts as a URL: it starts with `http://` or `https://`
      (exact case) and contains no ordinary space. */
  predicate WholeUrl(t: string)
  {
    (StartsWith(t, "http://") || StartsWith(t, "https://")) && ' ' !in t
  }

  ghost predicate HasMd(t: string)
  {
    exists i, j, e :: MdMatch(t, i, j, e)
  }

  ghost predicate HasUrl(t: string)
  {
    exists b, e :: UrlMatch(t, b, e, false)
  }

  /** The string case: the four rules applied to the trimmed text. */
  function FromString(s: string): (r: Option<string>)
    ensures r.Some? ==> IsMediaRef(r.value) && r.value != []
  {
    FromTrimmed(Trim(s))
  }

  /** The four string rules, tried in order. */
  function FromTrimmed(t: string): (r: Option<string>)
    ensures r.Some? ==> IsMediaRef(r.value) && r.value != []
  {
    match MdScan(t, 0)
    case Some(sp) =>
      CaptureIsMediaRef(t, sp.close + 2, sp.end, true);
      Some(t[sp.close + 2..sp.end])
    case None =>
      if WholeUrl(t) then
        PrefixIsMediaRef(t);
        Some(t)
      else if StartsWith(t, "data:image") then
        Some(t)
      else
        match UrlScan(t, 0)
        case Some(sp) =>
          CaptureIsMediaRef(t, sp.start, sp.end, false);
          Some(t[sp.start..sp.end])
        case None => None
  }

  /** The match at `i` with its `]` at `j` is the one a left-to-right engine reports:
      no match starts earlier, and none starting at `i` closes its brackets earlier. */
  ghost predicate FirstMd(t: string, i: nat, j: nat, e: nat)
  {
    && MdMatch(t, i, j, e)
    && forall i', j', e' :: MdMatch(t, i', j', e') ==> i < i' || (i == i' && j <= j')
  }

  /** Rule 1: a markdown image link wins over everything else; of several, the one that
      starts first, and of those, the one whose `]` comes first. */
  lemma MarkdownRuleFirst(t: string)
    requires HasMd(t)
    ensures exists i: nat, j: nat, e: nat :: FirstMd(t, i, j, e) && FromTrimmed(t) == Some(t[j + 2..e])
  {
    var sp := MdScanFinds(t);
    FromTrimmedMd(t, sp);
  }

  /** When some match exists the scan reports one. */
  lemma MdScanFinds(t: string) returns (sp: MdSpan)
    requires HasMd(t)
    ensures MdScan(t, 0) == Some(sp)
  {
    var i0, j0, e0 :| MdMatch(t, i0, j0, e0);
    sp := MdScan(t, 0).value;
  }

  /** The scan's report is the first match, and it is what the extraction returns. */
  lemma FromTrimmedMd(t: string, sp: MdSpan)
    requires MdScan(t, 0) == Some(sp)
    ensures FirstMd(t, sp.start, sp.close, sp.end) && FromTrimmed(t) == Some(t[sp.close + 2..sp.end])
  {
  }

  /** Rule 2: without a markdown link, a text that starts with `http://` or `https://`
      and has no space is returned whole. */
  lemma WholeUrlRule(t: string)
    requires !HasMd(t) && WholeUrl(t)
    ensures FromTrimmed(t) == Some(t)
  {
  }

  /** Rule 3: otherwise a `data:image` prefix returns the whole text. */
  lemma DataImageRule(t: string)
    requires !HasMd(t) && !WholeUrl(t) && StartsWith(t, "data:image")
    ensures FromTrimmed(t) == Some(t)
  {
  }

  /** Rule 4: otherwise the leftmost embedded URL, taken as long as it goes; nothing when
      there is none. */
  lemma EmbeddedUrlRule(t: string)
    requires !HasMd(t) && !WholeUrl(t) && !StartsWith(t, "data:image")
    ensures FromTrimmed(t).Some? <==> HasUrl(t)
    ensures HasUrl(t) ==> exists b: nat, e: nat :: UrlMatch(t, b, e, false) && FromTrimmed(t) == Some(t[b..e])
                            && forall b': nat, e': nat :: b' < b ==> !UrlMatch(t, b', e', false)
  {
    assert MdScan(t, 0).None?;
    var r := UrlScan(t, 0);
    assert FromTrimmed(t) == if r.Some? then Some(t[r.value.start..r.value.end]) else None;
    if r.Some? {
      var b, e := r.value.start, r.value.end;
      assert UrlMatch(t, b, e, false);
      assert forall b': nat, e': nat :: b' < b ==> !UrlMatch(t, b', e', false);
      assert FromTrimmed(t) == Some(t[b..e]);
    }
  }

  // ---------------------------------------------------------------------
  // The recursive search

  /** The keys an object is searched under first, as the source lists them (`url` twice). */
  const PriorityKeys: seq<string> := ["url", "b64_json", "image", "img", "link", "content", "data", "url"]

  /** `findImageUrlInObject`. Falsy values give nothing; so do `true` and non-zero numbers,
      which are neither strings, arrays nor objects. */
  function Find(j: Json): (r: Option<string>)
    ensures r.Some? ==> IsMediaRef(r.value) && r.value != []
    ensures !Truthy(j) ==> r.None?
    ensures (j.JNull? || j.JBool? || j.JNum?) ==> r.None?
    decreases j
  {
    match j
    case JStr(s) => if s == "" then None else FromString(s)
    case JArr(items) => FirstInItems(items)
    case JObj(fields) =>
      (match PriorityPass(fields, PriorityKeys)
       case Some(u) => Some(u)
       case None => FallbackPass(fields))
    case _ => None
  }

  /** The `for (const item of obj)` loop: the first element whose search succeeds. */
  function FirstInItems(items: seq<Json>): (r: Option<string>)
    ensures r.Some? ==> IsMediaRef(r.value) && r.value != []
    decreases items
  {
    if items == [] then None
    else match Find(items[0])
      case Some(u) => Some(u)
      case None => FirstInItems(items[1..])
  }

  /** The loop over the priority keys: a key is searched when its value is truthy. */
  function PriorityPass(fields: seq<Field>, keys: seq<string>): (r: Option<string>)
    ensures r.Some? ==> IsMediaRef(r.value) && r.value != []
    decreases fields, |keys|
  {
    if keys == [] then None
    else match KeyIndex(fields, keys[0])
      case Some(i) =>
        if Truthy(fields[i].value) then
          match Find(fields[i].value)
          case Some(u) => Some(u)
          case None => PriorityPass(fields, keys[1..])
        else PriorityPass(fields, keys[1..])
      case None => PriorityPass(fields, keys[1..])
  }

  /** The `for (const key in obj)` loop: every member whose value is an object or a string. */
  function FallbackPass(fields: seq<Field>): (r: Option<string>)
    ensures r.Some? ==> IsMediaRef(r.value) && r.value != []
    decreases fields
  {
    if fields == [] then None
    else if IsObjectOrString(fields[0].value) then
      match Find(fields[0].value)
      case Some(u) => Some(u)
      case None => FallbackPass(fields[1..])
    else FallbackPass(fields[1..])
  }
}

/** What the search promises about arrays and objects, and the worked examples. */
module ExtractorFacts {
  import opened Wrappers
  import opened Json
  import opened Extractor

  /** An array yields the result of its first element, in order, whose search succeeds. */
  lemma {:induction false} ArrayFirstHit(items: seq<Json>, i: nat)
    requires i < |items| && Find(items[i]).Some?
    requires forall k :: 0 <= k < i ==> Find(items[k]).None?
    ensures Find(JArr(items)) == Find(items[i])
  {
    if i > 0 {
      assert forall k :: 0 <= k < i - 1 ==> items[1..][k] == items[k + 1];
      ArrayFirstHit(items[1..], i - 1);
    }
  }

  /** An array yields nothing exactly when none of its elements does. */
  lemma {:induction false} ArrayNoHit(items: seq<Json>)
    ensures Find(JArr(items)).None? <==> forall k :: 0 <= k < |items| ==> Find(items[k]).None?
  {
    if items != [] {
      ArrayNoHit(items[1..]);
      assert forall k :: 1 <= k < |items| ==> items[k] == items[1..][k - 1];
    }
  }

  /** The priority key `key` does not produce a result: absent, falsy, or searched in vain. */
  predicate PriorityMiss(fields: seq<Field>, key: string)
  {
    match KeyIndex(fields, key)
    case None => true
    case Some(i) => !Truthy(fields[i].value) || Find(fields[i].value).None?
  }

  lemma {:induction false} PriorityPassFirst(fields: seq<Field>, keys: seq<string>, p: nat, i: nat)
    requires p < |keys| && KeyIndex(fields, keys[p]) == Some(i)
    requires Truthy(fields[i].value) && Find(fields[i].value).Some?
    requires forall q :: 0 <= q < p ==> PriorityMiss(fields, keys[q])
    ensures PriorityPass(fields, keys) == Find(fields[i].value)
    decreases p
  {
    if p > 0 {
      assert forall q :: 0 <= q < p - 1 ==> keys[1..][q] == keys[q + 1];
      PriorityPassFirst(fields, keys[1..], p - 1, i);
    }
  }

  /** On an object, the first priority key (in the order url, b64_json, image, img, link,
      content, data) whose value is truthy and yields a result decides, whatever the other
      members hold and wherever they stand. */
  lemma PriorityKeyWins(fields: seq<Field>, p: nat, i: nat)
    requires p < |PriorityKeys| && KeyIndex(fields, PriorityKeys[p]) == Some(i)
    requires Truthy(fields[i].value) && Find(fields[i].value).Some?
    requires forall q :: 0 <= q < p ==> PriorityMiss(fields, PriorityKeys[q])
    ensures Find(JObj(fields)) == Find(fields[i].value)
  {
    PriorityPassFirst(fields, PriorityKeys, p, i);
  }

  lemma {:induction false} PriorityPassMiss(fields: seq<Field>, keys: seq<string>)
    requires forall q :: 0 <= q < |keys| ==> PriorityMiss(fields, keys[q])
    ensures PriorityPass(fields, keys).None?
    decreases |keys|
  {
    if keys != [] {
      assert forall q :: 0 <= q < |keys| - 1 ==> keys[1..][q] == keys[q + 1];
      PriorityPassMiss(fields, keys[1..]);
    }
  }

  /** The fallback scan yields the first member, in order, whose search succeeds: the
      `typeof` filter only skips values whose search would fail anyway. */
  lemma {:induction false} FallbackFirstHit(fields: seq<Field>, i: nat)
    requires i < |fields| && Find(fields[i].value).Some?
    requires forall k :: 0 <= k < i ==> Find(fields[k].value).None?
    ensures FallbackPass(fields) == Find(fields[i].value)
  {
    if i > 0 {
      assert Find(fields[0].value).None?;
      assert FallbackPass(fields) == FallbackPass(fields[1..]);
      assert forall k :: 0 <= k < i - 1 ==> fields[1..][k] == fields[k + 1];
      FallbackFirstHit(fields[1..], i - 1);
    } else {
      assert IsObjectOrString(fields[0].value);
    }
  }

  lemma {:induction false} FallbackNoHit(fields: seq<Field>)
    ensures FallbackPass(fields).None? <==> forall k :: 0 <= k < |fields| ==> Find(fields[k].value).None?
  {
    if fields != [] {
      FallbackNoHit(fields[1..]);
      assert forall k :: 1 <= k < |fields| ==> fields[k] == fields[1..][k - 1];
    }
  }

  /** When no priority key produces a result, an object yields the first member, in
      enumeration order, whose search succeeds, and nothing if there is none. */
  lemma ObjectFallback(fields: seq<Field>)
    requires forall q :: 0 <= q < |PriorityKeys| ==> PriorityMiss(fields, PriorityKeys[q])
    ensures Find(JObj(fields)) == FallbackPass(fields)
    ensures Find(JObj(fields)).None? <==> forall k :: 0 <= k < |fields| ==> Find(fields[k].value).None?
  {
    PriorityPassMiss(fields, PriorityKeys);
    FallbackNoHit(fields);
  }

  /** A search that fails on a value fails on everything inside it: the children of an
      array or object are all searched before the search gives up. */
  lemma NothingInside(j: Json)
    requires Find(j).None?
    ensures j.JArr? ==> forall k :: 0 <= k < |j.items| ==> Find(j.items[k]).None?
    ensures j.JObj? ==> forall k :: 0 <= k < |j.fields| ==> Find(j.fields[k].value).None?
  {
    match j
    case JArr(items) => ArrayNoHit(items);
    case JObj(fields) =>
      assert PriorityPass(fields, PriorityKeys).None?;
      FallbackNoHit(fields);
    case _ =>
  }

  /** Property access keeps a failed search failed. */
  lemma NothingInsideGet(j: Json, key: string)
    requires Find(j).None?
    ensures Find(Get(j, key)).None?
  {
    NothingInside(j);
  }

  // ---------------------------------------------------------------------
  // Worked examples

  lemma PlainUrlTrimmed()
    ensures Text.Trim("https://x/y.png") == "https://x/y.png"
  {
    Text.TrimUnchanged("https://x/y.png");
  }

  lemma PlainUrlNoMarkdown(u: string)
    requires u == "https://x/y.png"
    ensures !HasMd(u) && WholeUrl(u)
  {
    assert forall k :: 0 <= k < |u| ==> u[k] != '!';
  }

  lemma PlainUrlFound()
    ensures Find(JStr("https://x/y.png")) == Some("https://x/y.png")
  {
    var u := "https://x/y.png";
    PlainUrlTrimmed();
    PlainUrlNoMarkdown(u);
    WholeUrlRule(u);
  }

  lemma UrlMemberFound(inner: seq<Field>)
    requires inner == [Field("url", JStr("https://x/y.png"))]
    ensures Find(JObj(inner)) == Some("https://x/y.png")
  {
    PlainUrlFound();
    assert KeyIndex(inner, "url") == Some(0);
    PriorityKeyWins(inner, 0, 0);
  }

  lemma DataMemberFound(outer: seq<Field>, inner: seq<Field>)
    requires inner == [Field("url", JStr("https://x/y.png"))]
    requires outer == [Field("data", JArr([JObj(inner)]))]
    ensures Find(JObj(outer)) == Some("https://x/y.png")
  {
    UrlMemberFound(inner);
    ArrayFirstHit([JObj(inner)], 0);
    forall q | 0 <= q < 6 ensures PriorityMiss(outer, PriorityKeys[q]) {
      assert KeyIndex(outer, PriorityKeys[q]).None?;
    }
    assert KeyIndex(outer, "data") == Some(0);
    PriorityKeyWins(outer, 6, 0);
  }

  /** `{"data":[{"url":"https://x/y.png"}]}` yields `https://x/y.png`. */
  lemma ExampleNestedUrl()
    ensures Find(JObj([Field("data", JArr([JObj([Field("url", JStr("https://x/y.png"))])]))]))
            == Some("https://x/y.png")
  {
    var inner := [Field("url", JStr("https://x/y.png"))];
    DataMemberFound([Field("data", JArr([JObj(inner)]))], inner);
  }

  lemma BarNotFound()
    ensures Find(JStr("bar")).None?
  {
    Text.TrimUnchanged("bar");
    assert FromTrimmed("bar").None?;
  }

  lemma FooMisses(fields: seq<Field>)
    requires fields == [Field("foo", JStr("bar"))]
    ensures forall q | 0 <= q < |PriorityKeys| :: PriorityMiss(fields, PriorityKeys[q])
  {
    forall q | 0 <= q < |PriorityKeys| ensures PriorityMiss(fields, PriorityKeys[q]) {
      assert KeyIndex(fields, PriorityKeys[q]).None?;
    }
  }

  /** `{"foo":"bar"}` yields nothing. */
  lemma ExampleNoUrl()
    ensures Find(JObj([Field("foo", JStr("bar"))])).None?
  {
    var fields := [Field("foo", JStr("bar"))];
    BarNotFound();
    FooMisses(fields);
    ObjectFallback(fields);
  }

  lemma MdExampleMatch(t: string)
    requires t == "a ![b](http://c) d"
    ensures MdMatch(t, 2, 5, 15)
  {
    assert t[7..14] == "http://" by {
      assert forall k :: 7 <= k < 14 ==> t[k] == "http://"[k - 7];
    }
    assert IsSchemeAt(t, 7, 7);
    assert UrlMatchWith(t, 7, 7, 15, true);
  }

  lemma MdExampleChars(t: string)
    requires t == "a ![b](http://c) d"
    ensures |t| == 18 && t[0] == 'a' && t[1] == ' ' && t[4] == 'b' && t[11] == ':'
  {
  }

  /** No match starts before the one at 2, and that one has only one `]` and one `)`. */
  lemma MdExampleOnly(t: string, i: nat, j: nat, e: nat)
    requires t == "a ![b](http://c) d"
    requires MdMatch(t, i, j, e) && i <= 2 && (i == 2 ==> j <= 5)
    ensures i == 2 && j == 5 && e == 15
  {
    MdExampleChars(t);
    assert i == 2;
    assert j == 5;
    MdExampleMatch(t);
    assert !IsSchemeAt(t, 7, 8) by {
      assert t[7..15][4] == ':';
    }
    assert UrlMatchWith(t, 7, 7, e, true);
    MaximalRunUnique(t, 14, 15, e, true);
  }

  lemma MdExampleTrimmed()
    ensures Text.Trim("a ![b](http://c) d") == "a ![b](http://c) d"
  {
    Text.TrimUnchanged("a ![b](http://c) d");
  }

  lemma MdExampleFound(t: string)
    requires t == "a ![b](http://c) d"
    ensures FromTrimmed(t) == Some("http://c")
  {
    MdExampleMatch(t);
    var r := MdScan(t, 0);
    assert r.Some?;
    var sp := r.value;
    MdExampleOnly(t, sp.start, sp.close, sp.end);
    assert FromTrimmed(t) == Some(t[7..15]);
    assert t[7..15] == "http://c";
  }

  /** `"a ![b](http://c) d"` yields `http://c`. */
  lemma ExampleMarkdown()
    ensures Find(JStr("a ![b](http://c) d")) == Some("http://c")
  {
    MdExampleTrimmed();
    MdExampleFound("a ![b](http://c) d");
  }
}
