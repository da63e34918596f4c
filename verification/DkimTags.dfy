/**
 The tags of a DKIM record (`check_dkim_syntax` in modoboa/dnstools/lib.py): which records are
 refused, and which public key the others give.
 */
module DkimTags {
  import opened Text
  import opened Strings
  import opened Dkim

  /** The key, or the reason for the exception. */
  datatype Checked = Key(key: string) | NotDkim | InvalidTag(tag: string) | NoKey

  predicate NotEquals(c: char) {
    c != '='
  }

  /** `tag.split("=", 1)` after `tag.strip(" ")`: where the "=" is. */
  function EqualsAt(tag: string): nat {
    PrefixLength(NotEquals, Strip(tag, ' '))
  }

  predicate Valid(tag: string) {
    Strip(tag, ' ') == "" || EqualsAt(tag) < |Strip(tag, ' ')|
  }

  predicate IsKey(tag: string) {
    && EqualsAt(tag) < |Strip(tag, ' ')|
    && Strip(Strip(tag, ' ')[..EqualsAt(tag)], ' ') == "p"
  }

  /** `"".join(part.strip('"') for part in parts)`. */
  function Unquoted(parts: seq<string>): string {
    if parts == [] then "" else Strip(parts[0], '"') + Unquoted(parts[1..])
  }

  function KeyValue(tag: string): string
    requires IsKey(tag)
  {
    Unquoted(SplitOn(Strip(tag, ' ')[EqualsAt(tag) + 1..], ' '))
  }

  /** The value of the last "p" tag. */
  function LastKey(tags: seq<string>): Option<string> {
    if tags == [] then None
    else if IsKey(tags[|tags| - 1]) then Some(KeyValue(tags[|tags| - 1]))
    else LastKey(tags[..|tags| - 1])
  }

  /** What a record is worth: the first tag without "=" refuses it, else its last key counts. */
  function Verdict(record: string): Checked {
    var tags := SplitOn(record, ';')[1..];
    var n := PrefixLength(Valid, tags);
    if !StartsWith(record, "v=DKIM1") then NotDkim
    else if n < |tags| then InvalidTag(Strip(tags[n], ' '))
    else if LastKey(tags).None? then NoKey
    else Key(LastKey(tags).value)
  }

  /** The body of the source's loop: None is "continue" without an exception. */
  method ReadTag(tag: string, key: Option<string>) returns (error: bool, next: Option<string>)
    ensures error <==> !Valid(tag)
    ensures !error ==> next == if IsKey(tag) then Some(KeyValue(tag)) else key
  {
    error, next := false, key;
    var t := Strip(tag, ' ');
    if t == "" {
      return;
    }
    var n := PrefixLength(NotEquals, t);
    if n == |t| {
      error := true;
      return;
    }
    if Strip(t[..n], ' ') == "p" {
      next := Some(Unquoted(SplitOn(t[n + 1..], ' ')));
    }
  }

  method CheckDkimSyntax(record: string) returns (r: Checked)
    ensures r == Verdict(record)
  {
    if !StartsWith(record, "v=DKIM1") {
      return NotDkim;
    }
    var key: Option<string> := None;
    var tags := SplitOn(record, ';')[1..];
    var i := 0;
    while i < |tags|
      invariant 0 <= i <= |tags|
      invariant forall j :: 0 <= j < i ==> Valid(tags[j])
      invariant key == LastKey(tags[..i])
    {
      var error, next := ReadTag(tags[i], key);
      if error {
        PrefixLengthIs(Valid, tags, i);
        return InvalidTag(Strip(tags[i], ' '));
      }
      LastKeyStep(tags, i);
      key := next;
      i := i + 1;
    }
    assert tags[..i] == tags;
    PrefixLengthIs(Valid, tags, i);
    return if key.None? then NoKey else Key(key.value);
  }

  lemma LastKeyStep(tags: seq<string>, i: nat)
    requires i < |tags|
    ensures LastKey(tags[..i + 1]) == if IsKey(tags[i]) then Some(KeyValue(tags[i])) else LastKey(tags[..i])
  {
    assert tags[..i + 1][..i] == tags[..i];
  }

  /** A record is refused for its tags exactly when some tag, blanks apart, has no "=". */
  lemma RefusedIff(record: string)
    requires StartsWith(record, "v=DKIM1")
    ensures Verdict(record).InvalidTag? <==>
            exists i :: 1 <= i < |SplitOn(record, ';')| && !Valid(SplitOn(record, ';')[i])
  {
    var parts := SplitOn(record, ';');
    var tags := parts[1..];
    assert forall i :: 1 <= i < |parts| ==> parts[i] == tags[i - 1];
    var n := PrefixLength(Valid, tags);
    if n < |tags| {
      assert !Valid(parts[n + 1]);
    }
  }

  lemma {:induction false} LastKeyNone(tags: seq<string>)
    ensures LastKey(tags).None? <==> forall i :: 0 <= i < |tags| ==> !IsKey(tags[i])
  {
    if tags != [] {
      var front := tags[..|tags| - 1];
      LastKeyNone(front);
      assert forall i :: 0 <= i < |front| ==> front[i] == tags[i];
    }
  }

  lemma FirstEquals(t: string, k: nat)
    requires k < |t| && t[k] == '=' && '=' !in t[..k]
    ensures PrefixLength(NotEquals, t) == k
  {
    assert forall i :: 0 <= i < k ==> t[..k][i] == t[i];
    PrefixLengthIs(NotEquals, t, k);
  }

  /** A tag is valid exactly when it is blank or holds a "=", and it is the key exactly when what is
      before the first "=" is a "p" between spaces. */
  lemma TagIs(tag: string)
    ensures var t := Strip(tag, ' ');
            && (Valid(tag) <==> t == "" || '=' in t)
            && (IsKey(tag) <==> exists n :: 0 <= n < |t| && t[n] == '=' && '=' !in t[..n] && Strip(t[..n], ' ') == "p")
  {
    var t := Strip(tag, ' ');
    var n := EqualsAt(tag);
    assert forall i :: 0 <= i < n ==> NotEquals(t[i]);
    assert '=' !in t[..n];
    forall k | 0 <= k < |t| && t[k] == '=' && '=' !in t[..k]
      ensures k == n
    {
      FirstEquals(t, k);
    }
  }

  predicate FirstInvalid(tags: seq<string>, i: int, tag: string) {
    0 <= i < |tags| && !Valid(tags[i]) && tag == Strip(tags[i], ' ') && forall j :: 0 <= j < i ==> Valid(tags[j])
  }

  predicate AllValid(tags: seq<string>) {
    forall i :: 0 <= i < |tags| ==> Valid(tags[i])
  }

  predicate HasKey(tags: seq<string>) {
    exists i :: 0 <= i < |tags| && IsKey(tags[i])
  }

  lemma TagsAre(tags: seq<string>)
    ensures var n := PrefixLength(Valid, tags);
            && (n == |tags| <==> AllValid(tags))
            && (n < |tags| ==> FirstInvalid(tags, n, Strip(tags[n], ' ')))
    ensures LastKey(tags).Some? <==> HasKey(tags)
  {
    LastKeyNone(tags);
    var n := PrefixLength(Valid, tags);
    if n < |tags| {
      assert !Valid(tags[n]);
    }
  }

  /** Which verdict a record gets: it does not start like a DKIM record; some tag has no "=", the
      first of which is reported; all tags are valid and none is a key; or there is a key. */
  lemma VerdictExactly(record: string)
    ensures var starts, tags := |record| >= 7 && record[..7] == "v=DKIM1", SplitOn(record, ';')[1..];
            && (Verdict(record) == NotDkim <==> !starts)
            && (Verdict(record) == NoKey <==> starts && AllValid(tags) && !HasKey(tags))
            && (Verdict(record).Key? <==> starts && AllValid(tags) && HasKey(tags))
            && (Verdict(record).InvalidTag? <==> starts && !AllValid(tags))
            && (Verdict(record).InvalidTag? ==> exists i :: FirstInvalid(tags, i, Verdict(record).tag))
  {
    TagsAre(SplitOn(record, ';')[1..]);
  }

  // ---------------------------------------------------------------- the key of a record

  lemma {:induction false} NoKeyAfter(tags: seq<string>, after: seq<string>)
    requires forall i :: 0 <= i < |after| ==> !IsKey(after[i])
    ensures LastKey(tags + after) == LastKey(tags)
  {
    if after == [] {
      assert tags + after == tags;
    } else {
      var n := |after| - 1;
      assert (tags + after)[..|tags| + n] == tags + after[..n];
      assert !IsKey(after[n]) && (tags + after)[|tags| + n] == after[n];
      NoKeyAfter(tags, after[..n]);
    }
  }

  lemma LastKeyIs(before: seq<string>, tag: string, after: seq<string>)
    requires IsKey(tag)
    requires forall i :: 0 <= i < |after| ==> !IsKey(after[i])
    ensures LastKey(before + [tag] + after) == Some(KeyValue(tag))
  {
    NoKeyAfter(before + [tag], after);
  }

  lemma {:induction false} UnquotedFree(parts: seq<string>)
    requires forall i :: 0 <= i < |parts| ==> Free(parts[i], '"')
    ensures Unquoted(parts) == Concat(parts)
  {
    if parts != [] {
      assert Free(parts[0], '"');
      StripEnds(parts[0], '"');
      UnquotedFree(parts[1..]);
    }
  }

  lemma {:induction false} StripRightTail(head: string, s: string, c: char)
    requires head != "" && head[|head| - 1] != c
    ensures StripRight(head + s, c) == head + StripRight(s, c)
  {
    if s != "" && s[|s| - 1] == c {
      assert (head + s)[..|head + s| - 1] == head + s[..|s| - 1];
      StripRightTail(head, s[..|s| - 1], c);
    } else if s == "" {
      assert head + s == head;
    }
  }

  lemma {:induction false} WithoutStripRight(s: string, c: char)
    ensures Without(StripRight(s, c), c) == Without(s, c)
    ensures StripRight(s, c) <= s
  {
    if s != "" && s[|s| - 1] == c {
      var shorter := s[..|s| - 1];
      WithoutStripRight(shorter, c);
      assert s == shorter + Run(c, 1);
      WithoutConcat(shorter, Run(c, 1), c);
      WithoutRun(c, 1);
    }
  }

  /** A "p" tag, spaces allowed around its name. */
  function KeyTag(before: nat, after: nat, value: string): string {
    Run(' ', before) + ("p" + Run(' ', after) + "=" + value)
  }

  lemma StripKeyTag(before: nat, after: nat, value: string)
    ensures Strip(KeyTag(before, after, value), ' ') == "p" + Run(' ', after) + "=" + StripRight(value, ' ')
  {
    StripLeftEnd("p" + Run(' ', after) + "=" + value, ' ', before);
    StripRightTail("p" + Run(' ', after) + "=", value, ' ');
  }

  lemma KeyTagIsKey(before: nat, after: nat, value: string)
    ensures var tag := KeyTag(before, after, value);
            && EqualsAt(tag) == after + 1 && IsKey(tag) && Valid(tag)
            && Strip(tag, ' ')[after + 2..] == StripRight(value, ' ')
  {
    StripKeyTag(before, after, value);
    CutKeyTag(after, StripRight(value, ' '));
  }

  lemma CutKeyTag(after: nat, value: string)
    ensures var t := "p" + Run(' ', after) + "=" + value;
            && PrefixLength(NotEquals, t) == after + 1 < |t|
            && Strip(t[..after + 1], ' ') == "p" && t[after + 2..] == value
  {
    var t := "p" + Run(' ', after) + "=" + value;
    PrefixLengthIs(NotEquals, t, after + 1);
    assert t[..after + 1] == Run(' ', 0) + "p" + Run(' ', after);
    StripAround("p", ' ', 0, after);
  }

  /** The key of a quote-free value is that value without its spaces. */
  lemma KeyTagValue(before: nat, after: nat, value: string)
    requires Free(value, '"')
    ensures IsKey(KeyTag(before, after, value))
    ensures KeyValue(KeyTag(before, after, value)) == Without(value, ' ')
  {
    KeyTagIsKey(before, after, value);
    var text := StripRight(value, ' ');
    WithoutStripRight(value, ' ');
    PartsAreFree(text, ' ', '"');
    UnquotedFree(SplitOn(text, ' '));
    ConcatOfSplit(text, ' ');
  }

  /** The parts of a key, each between quotes. */
  function QuotedParts(parts: seq<string>): (r: seq<string>)
    ensures |r| == |parts|
  {
    seq(|parts|, i requires 0 <= i < |parts| => "\"" + (parts[i] + "\""))
  }

  lemma {:induction false} UnquotedParts(parts: seq<string>)
    requires forall i :: 0 <= i < |parts| ==> Free(parts[i], '"')
    ensures Unquoted(QuotedParts(parts)) == Concat(parts)
  {
    if parts != [] {
      assert Free(parts[0], '"');
      StripQuotes(parts[0]);
      assert QuotedParts(parts)[1..] == QuotedParts(parts[1..]);
      UnquotedParts(parts[1..]);
    }
  }

  lemma QuotedFree(parts: seq<string>)
    requires forall i :: 0 <= i < |parts| ==> Free(parts[i], ' ')
    ensures forall i :: 0 <= i < |QuotedParts(parts)| ==> Free(QuotedParts(parts)[i], ' ')
  {
    forall i | 0 <= i < |parts|
      ensures Free(QuotedParts(parts)[i], ' ')
    {
      QuotedPart(parts[i]);
    }
  }

  lemma QuotedPart(part: string)
    requires Free(part, ' ')
    ensures Free("\"" + (part + "\""), ' ')
  {
  }

  lemma {:induction false} JoinEnds(parts: seq<string>, c: char, last: char)
    requires parts != [] && forall i :: 0 <= i < |parts| ==> parts[i] != "" && parts[i][|parts[i]| - 1] == last
    ensures var s := JoinWith(parts, c); s != "" && s[|s| - 1] == last
  {
    if |parts| > 1 {
      JoinEnds(parts[1..], c, last);
    }
  }

  /** A key in quoted parts, a space between them, is the parts without quotes and spaces. */
  lemma QuotedKey(a: nat, b: nat, parts: seq<string>)
    requires parts != [] && forall i :: 0 <= i < |parts| ==> Free(parts[i], '"') && Free(parts[i], ' ')
    ensures var tag := KeyTag(a, b, JoinWith(QuotedParts(parts), ' ')); IsKey(tag) && KeyValue(tag) == Concat(parts)
  {
    QuotedEnds(parts);
    JoinEnds(QuotedParts(parts), ' ', '"');
    KeyOfEnded(a, b, JoinWith(QuotedParts(parts), ' '));
    QuotedFree(parts);
    SplitOfJoin(QuotedParts(parts), ' ');
    UnquotedParts(parts);
  }

  lemma QuotedEnds(parts: seq<string>)
    ensures var q := QuotedParts(parts); forall i :: 0 <= i < |q| ==> q[i] != "" && q[i][|q[i]| - 1] == '"'
  {
  }

  lemma KeyOfEnded(a: nat, b: nat, value: string)
    requires value != "" && value[|value| - 1] == '"'
    ensures var tag := KeyTag(a, b, value); IsKey(tag) && KeyValue(tag) == Unquoted(SplitOn(value, ' '))
  {
    KeyTagIsKey(a, b, value);
  }

  /** The tags that leave the key alone: blank, or "name=value" with another name. */
  predicate OtherTags(tags: seq<string>) {
    forall i :: 0 <= i < |tags| ==> Valid(tags[i]) && !IsKey(tags[i]) && Free(tags[i], ';')
  }

  /** `version;before;...;p=value;after;...` */
  function Record(version: string, before: seq<string>, tag: string, after: seq<string>): string {
    JoinWith([version] + (before + [tag] + after), ';')
  }

  lemma RecordTags(version: string, before: seq<string>, tag: string, after: seq<string>)
    requires Free(version, ';') && Free(tag, ';') && OtherTags(before) && OtherTags(after)
    ensures SplitOn(Record(version, before, tag, after), ';')[1..] == before + [tag] + after
  {
    var parts := [version] + (before + [tag] + after);
    SplitOfJoin(parts, ';');
    assert parts[1..] == before + [tag] + after;
  }

  lemma RecordStarts(version: string, before: seq<string>, tag: string, after: seq<string>)
    requires StartsWith(version, "v=DKIM1")
    ensures StartsWith(Record(version, before, tag, after), "v=DKIM1")
  {
    var rest := before + [tag] + after;
    var parts := [version] + rest;
    assert parts[1..] == rest;
    assert (version + ([';'] + JoinWith(rest, ';')))[..7] == version[..7];
  }

  /** A record with one key, anything valid around it, gives that key without its spaces: the
      order of the tags does not matter, nor do blank tags. */
  lemma KeyIsExact(version: string, before: seq<string>, a: nat, b: nat, value: string, after: seq<string>)
    requires StartsWith(version, "v=DKIM1") && Free(version, ';')
    requires OtherTags(before) && OtherTags(after)
    requires Free(value, '"') && Free(value, ';')
    ensures Verdict(Record(version, before, KeyTag(a, b, value), after)) == Key(Without(value, ' '))
  {
    var tag := KeyTag(a, b, value);
    var tags := before + [tag] + after;
    KeyTagValue(a, b, value);
    KeyTagIsKey(a, b, value);
    KeyTagFree(a, b, value);
    RecordTags(version, before, tag, after);
    RecordStarts(version, before, tag, after);
    PrefixLengthIs(Valid, tags, |tags|);
    LastKeyIs(before, tag, after);
  }

  lemma KeyTagFree(a: nat, b: nat, value: string)
    requires Free(value, ';')
    ensures Free(KeyTag(a, b, value), ';')
  {
  }

  /** From the zone to the key: the record, its octets printed, may be cut into strings anywhere,
      empty strings and single spaces included; it is found, put together, and gives exactly the
      published key. */
  lemma ChunkedKeyIsExact(chunks: seq<string>, version: string, before: seq<string>, key: string, after: seq<string>)
    requires chunks != [] && QuoteFree(chunks)
    requires Printed(Concat(chunks)) == Record(version, before, "p=" + key, after)
    requires StartsWith(version, "v=DKIM1") && Free(version, ';')
    requires OtherTags(before) && OtherTags(after)
    requires Free(key, ' ') && Free(key, '"') && Free(key, ';')
    ensures var value := Reassemble(Presentation(chunks));
            StartsWith(value, "v=" + "DKIM1") && Verdict(value) == Key(key)
  {
    assert KeyTag(0, 0, key) == "p=" + key;
    RecordStarts(version, before, "p=" + key, after);
    assert "v=" + "DKIM1" == "v=DKIM1";
    PrintedAllFree(chunks);
    PrintedText(chunks);
    QuotedStarts(PrintedAll(chunks), "DKIM1");
    KeyIsExact(version, before, 0, 0, key, after);
    WithoutFree(key, ' ');
  }
}
