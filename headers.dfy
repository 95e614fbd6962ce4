/** Case-insensitive lookup of a header in a message's metadata header list. */
module Headers {
  import opened Wrappers

  /** One header record as the mailbox provider returns it: a JSON object
      in which either key may be missing. */
  datatype Header = Header(name: Option<string>, value: Option<string>)

  /** ASCII lower-casing of one character. */
  function LowerChar(c: char): char {
    if 'A' <= c <= 'Z' then (c - 'A' + 'a') as char else c
  }

  /** ASCII lower-casing of a string, character by character. */
  function Lower(s: string): (r: string)
    ensures |r| == |s|
    ensures forall i :: 0 <= i < |s| ==> r[i] == LowerChar(s[i])
  {
    if s == [] then [] else [LowerChar(s[0])] + Lower(s[1..])
  }

  /** The header's name, or "" when the record has no `name` key. */
  function NameOf(h: Header): string {
    h.name.GetOr("")
  }

  /** The header's value, or "" when the record has no `value` key. */
  function ValueOf(h: Header): string {
    h.value.GetOr("")
  }

  /** Whether `h` answers a lookup for `name`: the names agree once both are lower-cased. */
  predicate Matches(h: Header, name: string) {
    Lower(NameOf(h)) == Lower(name)
  }

  /** The value of the first header that matches `name`; "" when none does. */
  function HeaderValue(headers: seq<Header>, name: string): string {
    if headers == [] then ""
    else if Matches(headers[0], name) then ValueOf(headers[0])
    else HeaderValue(headers[1..], name)
  }

  /** When header `k` is the first to match, the lookup gives its value ("" if it has none). */
  lemma {:induction false} HeaderValueFirstMatch(headers: seq<Header>, name: string, k: nat)
    requires k < |headers| && Matches(headers[k], name)
    requires forall j :: 0 <= j < k ==> !Matches(headers[j], name)
    ensures HeaderValue(headers, name) == ValueOf(headers[k])
  {
    if k > 0 {
      assert !Matches(headers[0], name);
      HeaderValueFirstMatch(headers[1..], name, k - 1);
    }
  }

  /** When no header matches, the lookup gives "". */
  lemma {:induction false} HeaderValueNoMatch(headers: seq<Header>, name: string)
    requires forall j :: 0 <= j < |headers| ==> !Matches(headers[j], name)
    ensures HeaderValue(headers, name) == ""
  {
    if headers != [] {
      assert !Matches(headers[0], name);
      HeaderValueNoMatch(headers[1..], name);
    }
  }

  /** Two requested names that differ only in ASCII case give the same answer. */
  lemma {:induction false} HeaderValueIgnoresCase(headers: seq<Header>, a: string, b: string)
    requires Lower(a) == Lower(b)
    ensures HeaderValue(headers, a) == HeaderValue(headers, b)
  {
    if headers != [] {
      HeaderValueIgnoresCase(headers[1..], a, b);
    }
  }

  /** The search stops at the first match: headers after a matching prefix are never consulted,
      and a prefix without a match is skipped. */
  lemma {:induction false} HeaderValueAppend(front: seq<Header>, back: seq<Header>, name: string)
    ensures (exists i :: 0 <= i < |front| && Matches(front[i], name)) ==>
              HeaderValue(front + back, name) == HeaderValue(front, name)
    ensures (forall i :: 0 <= i < |front| ==> !Matches(front[i], name)) ==>
              HeaderValue(front + back, name) == HeaderValue(back, name)
  {
    if front != [] {
      assert (front + back)[1..] == front[1..] + back;
      assert forall i :: 1 <= i < |front| ==> front[1..][i - 1] == front[i];
      HeaderValueAppend(front[1..], back, name);
    } else {
      assert front + back == back;
    }
  }

  /** A first match without a `value` key gives "" even when a later header of the same name has one. */
  lemma FirstMatchWithoutValue(h: Header, rest: seq<Header>, name: string)
    requires Matches(h, name) && h.value == None
    ensures HeaderValue([h] + rest, name) == ""
  {
  }
}
