/** The plain-text body of the notification email built by `send_email`.
    The MIME message, its subject and the SMTP session are not modelled. */
module Notifier {
  import opened Housing

  /** The fixed first line of the body. */
  const Header: string := "New housing offer(s) detected:\n"

  /** The two-line block describing one listing. */
  function Block(l: Listing): string
  {
    "- " + l.title + "\n  " + l.url + "\n"
  }

  /** Python's `sep.join(parts)`: the parts with `sep` between neighbours. */
  function Join(sep: string, parts: seq<string>): string
  {
    if parts == [] then ""
    else if |parts| == 1 then parts[0]
    else parts[0] + sep + Join(sep, parts[1..])
  }

  /** The value of `body_lines` after the loop: the header, then one block
      per listing. */
  function BodyLines(listings: seq<Listing>): seq<string>
  {
    [Header] + seq(|listings|, i requires 0 <= i < |listings| => Block(listings[i]))
  }

  /** The body text handed to the mailer. */
  function Body(listings: seq<Listing>): string
  {
    Join("\n", BodyLines(listings))
  }

  /** The loop of `send_email` that grows `body_lines`, followed by the join. */
  method ComposeBody(newListings: seq<Listing>) returns (body: string)
    ensures body == Body(newListings)
  {
    var bodyLines := [Header];
    for i := 0 to |newListings|
      invariant bodyLines == BodyLines(newListings[..i])
    {
      assert BodyLines(newListings[..i + 1]) == BodyLines(newListings[..i]) + [Block(newListings[i])];
      bodyLines := bodyLines + [Block(newListings[i])];
    }
    assert newListings[..|newListings|] == newListings;
    body := Join("\n", bodyLines);
  }

  /** Joining one more part appends the separator and that part. */
  lemma {:induction false} JoinSnoc(sep: string, parts: seq<string>, p: string)
    requires parts != []
    ensures Join(sep, parts + [p]) == Join(sep, parts) + sep + p
  {
    if |parts| > 1 {
      assert (parts + [p])[1..] == parts[1..] + [p];
      JoinSnoc(sep, parts[1..], p);
    }
  }

  /** With no listings the body is the header alone. */
  lemma BodyOfNone()
    ensures Body([]) == Header
  {
  }

  /** One more listing adds a newline separator and its block at the end. */
  lemma BodySnoc(listings: seq<Listing>, l: Listing)
    ensures Body(listings + [l]) == Body(listings) + "\n" + Block(l)
  {
    assert BodyLines(listings + [l]) == BodyLines(listings) + [Block(l)];
    JoinSnoc("\n", BodyLines(listings), Block(l));
  }

  /** The body of the first `j` listings is a prefix of the body of the
      first `k`, for `j <= k`. */
  lemma {:induction false} BodyPrefixes(listings: seq<Listing>, j: nat, k: nat)
    requires j <= k <= |listings|
    ensures Body(listings[..j]) <= Body(listings[..k])
  {
    if j < k {
      BodyPrefixes(listings, j, k - 1);
      assert listings[..k] == listings[..k - 1] + [listings[k - 1]];
      BodySnoc(listings[..k - 1], listings[k - 1]);
    }
  }

  /** The body starts with the header. */
  lemma BodyStartsWithHeader(listings: seq<Listing>)
    ensures Header <= Body(listings)
  {
  }

  /** The block of each listing appears in order: after the part of the body
      that describes the listings before it, a newline and then its block. */
  lemma BodyBlockInOrder(listings: seq<Listing>, i: nat)
    requires i < |listings|
    ensures Body(listings[..i]) + "\n" + Block(listings[i]) <= Body(listings)
  {
    assert listings[..i + 1] == listings[..i] + [listings[i]];
    BodySnoc(listings[..i], listings[i]);
    BodyPrefixes(listings, i + 1, |listings|);
    assert listings[..|listings|] == listings;
  }
}
