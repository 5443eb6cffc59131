/**
 * Markup stripping as done by `replace(/(<([^>]+)>)/ig, '')` in
 * src/server/server.js, for player names at join and for chat, and the
 * 35-character cut of a broadcast chat line.
 *
 * A match of the pattern starts at a '<' and ends at the first '>' after it,
 * with at least one character between them (`[^>]+` can never cross a '>').
 * The global replace scans left to right and resumes after each match.
 */
module Sanitize {

  const CHAT_LIMIT: nat := 35

  /** Index of the first '>' in `s`, or `|s|` when there is none. */
  function CloseAt(s: string): (k: nat)
    ensures k <= |s|
    ensures k < |s| ==> s[k] == '>'
    ensures forall i :: 0 <= i < k ==> s[i] != '>'
    decreases |s|
  {
    if |s| == 0 then 0 else if s[0] == '>' then 0 else 1 + CloseAt(s[1..])
  }

  /** The pattern matches at the head of `s`: '<', one or more non-'>' characters, '>'. */
  predicate TagAtHead(s: string) {
    |s| > 0 && s[0] == '<' && 1 <= CloseAt(s[1..]) && 1 + CloseAt(s[1..]) < |s|
  }

  /** The pattern matches somewhere in `s`. */
  predicate ContainsTag(s: string) {
    exists i :: 0 <= i < |s| && TagAtHead(s[i..])
  }

  /** The string with every match of the tag pattern removed. */
  function StripTags(s: string): (r: string)
    ensures |r| <= |s|
    decreases |s|
  {
    if |s| == 0 then ""
    else if TagAtHead(s) then StripTags(s[2 + CloseAt(s[1..])..])
    else [s[0]] + StripTags(s[1..])
  }

  /** `r` is `s` with some of its characters dropped: each one is kept or dropped, in order. */
  predicate Subsequence(r: string, s: string)
    decreases |s|
  {
    if |r| == 0 then true
    else if |s| == 0 then false
    else (r[0] == s[0] && Subsequence(r[1..], s[1..])) || Subsequence(r, s[1..])
  }

  /** Dropping a prefix of `s` first still leaves a subsequence of `s`. */
  lemma {:induction false} SubsequenceOfSuffix(r: string, s: string, m: nat)
    requires m <= |s| && Subsequence(r, s[m..])
    ensures Subsequence(r, s)
    decreases m
  {
    if m > 0 {
      assert s[m..] == s[1..][m - 1..];
      SubsequenceOfSuffix(r, s[1..], m - 1);
    }
  }

  /**
   * Stripping only removes characters: the result is a subsequence of the
   * input, so in particular every character of it occurs in the input.
   */
  lemma {:induction false} StripTagsChars(s: string)
    ensures Subsequence(StripTags(s), s)
    ensures forall c :: c in StripTags(s) ==> c in s
    decreases |s|
  {
    if |s| > 0 {
      if TagAtHead(s) {
        var rest := s[2 + CloseAt(s[1..])..];
        StripTagsChars(rest);
        SubsequenceOfSuffix(StripTags(s), s, 2 + CloseAt(s[1..]));
        forall c | c in rest ensures c in s {
          var k :| 0 <= k < |rest| && rest[k] == c;
          assert s[2 + CloseAt(s[1..]) + k] == c;
        }
      } else {
        StripTagsChars(s[1..]);
        assert StripTags(s)[1..] == StripTags(s[1..]);
      }
    }
  }

  /** A string without '>' admits no match. */
  lemma NoCloseNoTag(s: string)
    requires forall i :: 0 <= i < |s| ==> s[i] != '>'
    ensures CloseAt(s) == |s|
  {
  }

  /** The tail of a tag-free string is tag-free. */
  lemma TailHasNoTag(s: string)
    requires |s| > 0 && !ContainsTag(s)
    ensures !ContainsTag(s[1..])
  {
    forall i | 0 <= i < |s[1..]| ensures !TagAtHead(s[1..][i..]) {
      assert s[1..][i..] == s[i + 1..];
    }
  }

  /** After stripping no match is left: one pass of the global replace is enough. */
  lemma {:induction false} StripTagsLeavesNoTag(s: string)
    ensures !ContainsTag(StripTags(s))
    decreases |s|
  {
    if |s| == 0 {
    } else if TagAtHead(s) {
      StripTagsLeavesNoTag(s[2 + CloseAt(s[1..])..]);
    } else {
      var t := StripTags(s[1..]);
      var r := [s[0]] + t;
      assert StripTags(s) == r;
      StripTagsLeavesNoTag(s[1..]);
      assert !TagAtHead(r) by {
        if s[0] == '<' {
          if |s| == 1 {
            assert r == s;
          } else if CloseAt(s[1..]) == 0 {
            // s[1] is '>', which is kept, so the '<' is followed directly by '>'.
            var u := s[1..];
            assert |u| > 0 && u[0] == '>';
            assert !TagAtHead(u);
            assert t == [u[0]] + StripTags(u[1..]);
            assert r[1..] == t;
          } else {
            // No '>' after the '<' in s, hence none in t.
            StripTagsChars(s[1..]);
            forall i | 0 <= i < |t| ensures t[i] != '>' {
              assert t[i] in t;
            }
            NoCloseNoTag(t);
            assert r[1..] == t;
          }
        }
      }
      forall i | 0 <= i < |r| ensures !TagAtHead(r[i..]) {
        if i > 0 {
          assert r[i..] == t[i - 1..];
        }
      }
    }
  }

  /** Stripping a tag-free string changes nothing. */
  lemma {:induction false} StripTagsIdentityOnClean(s: string)
    requires !ContainsTag(s)
    ensures StripTags(s) == s
    decreases |s|
  {
    if |s| > 0 {
      assert s[0..] == s;
      assert !TagAtHead(s);
      TailHasNoTag(s);
      StripTagsIdentityOnClean(s[1..]);
      assert [s[0]] + s[1..] == s;
    }
  }

  /** Stripping is idempotent. */
  lemma StripTagsIdempotent(s: string)
    ensures StripTags(StripTags(s)) == StripTags(s)
  {
    StripTagsLeavesNoTag(s);
    StripTagsIdentityOnClean(StripTags(s));
  }

  /** Where the first '>' of a prefix lies. */
  lemma {:induction false} CloseAtPrefix(s: string, n: nat)
    requires n <= |s|
    ensures CloseAt(s[..n]) == if CloseAt(s) < n then CloseAt(s) else n
    decreases |s|
  {
    if |s| > 0 && n > 0 && s[0] != '>' {
      assert s[..n][1..] == s[1..][..n - 1];
      CloseAtPrefix(s[1..], n - 1);
    }
  }

  /** A prefix of a tag-free string is tag-free: cutting never creates a match. */
  lemma PrefixHasNoTag(s: string, n: nat)
    requires n <= |s| && !ContainsTag(s)
    ensures !ContainsTag(s[..n])
  {
    var p := s[..n];
    forall i | 0 <= i < |p| ensures !TagAtHead(p[i..]) {
      assert p[i..] == s[i..][..n - i];
      assert !TagAtHead(s[i..]);
      if |p[i..]| > 1 {
        assert p[i..][1..] == s[i..][1..][..n - i - 1];
        CloseAtPrefix(s[i..][1..], n - i - 1);
      }
    }
  }

  datatype ChatLine = ChatLine(sender: string, message: string)

  /**
   * The `playerChat` broadcast: the sender shown is the player's own name
   * (the client-supplied sender is sanitised only for the log), and the
   * message is stripped of tags and cut to its first 35 characters.
   */
  function ChatBroadcast(playerName: string, message: string): (r: ChatLine)
    ensures r.sender == playerName
    ensures |r.message| <= CHAT_LIMIT
    ensures !ContainsTag(r.message)
    ensures r.message <= StripTags(message)
    ensures |StripTags(message)| <= CHAT_LIMIT ==> r.message == StripTags(message)
    ensures |StripTags(message)| > CHAT_LIMIT ==> r.message == StripTags(message)[..CHAT_LIMIT]
  {
    var clean := StripTags(message);
    StripTagsLeavesNoTag(message);
    var cut := if |clean| <= CHAT_LIMIT then clean else clean[..CHAT_LIMIT];
    PrefixHasNoTag(clean, |cut|);
    assert clean[..|cut|] == cut;
    ChatLine(playerName, cut)
  }
}
