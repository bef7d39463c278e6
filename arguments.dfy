/**
 * The argument composer: the fixed TLS settings that point kafkacat at
 * descriptors 3, 4 and 5, the broker list taken from KAFKA_URL, and the
 * user's own arguments.
 */
module Arguments {
  import opened GoStrings
  import opened Credentials

  const BrokerUrlVar := "KAFKA_URL"
  const BrokerScheme := "kafka://"

  /** sslArgs: four `-X` settings, TLS first, then the CA, certificate and key files, in this order. */
  function SslArgs(): (args: seq<string>)
    ensures |args| == 8
    ensures forall k :: 0 <= k < 4 ==> args[2 * k] == "-X"
    ensures args[1] == "security.protocol=ssl"
  {
    ["-X", "security.protocol=ssl",
     "-X", "ssl.ca.location=/dev/fd/3",
     "-X", "ssl.certificate.location=/dev/fd/4",
     "-X", "ssl.key.location=/dev/fd/5"]
  }

  /**
   * The broker list with every "kafka://" removed (strings.Replace with
   * count -1): a list without the scheme is passed on as it is, and each
   * removal takes the scheme's eight characters away.
   */
  function StripScheme(url: string): (r: string)
    ensures Free(url, BrokerScheme) ==> r == url
    ensures |r| <= |url|
    ensures !Free(url, BrokerScheme) ==> |r| <= |url| - |BrokerScheme|
  {
    ReplaceAll(url, BrokerScheme, "")
  }

  /**
   * The argument vector handed to kafkacat: the TLS settings, then "-b"
   * and the broker list when KAFKA_URL is set, then the user's arguments
   * unchanged.
   */
  function ComposeArgs(env: Env, userArgs: seq<string>): (args: seq<string>)
    ensures |args| == 8 + (if Getenv(env, BrokerUrlVar) != "" then 2 else 0) + |userArgs|
    ensures args[..8] == SslArgs()
    ensures Getenv(env, BrokerUrlVar) != "" ==> args[8] == "-b" && args[9] == StripScheme(Getenv(env, BrokerUrlVar))
    ensures args[|args| - |userArgs|..] == userArgs
  {
    var url := Getenv(env, BrokerUrlVar);
    SslArgs() + (if url != "" then ["-b", StripScheme(url)] else []) + userArgs
  }

  /**
   * Removing the scheme is one left-to-right pass: a leading "kafka://" goes
   * and the rest is treated the same way.
   */
  lemma StripSchemeLeading(rest: string)
    ensures StripScheme(BrokerScheme + rest) == StripScheme(rest)
  {
    ReplaceAllStep([], BrokerScheme, rest, "");
    assert [] + BrokerScheme + rest == BrokerScheme + rest;
  }

  /** The text between the removed occurrences, joined without separator. */
  lemma StripSchemeIsConcatOfPieces(url: string)
    ensures StripScheme(url) == Join(Split(url, BrokerScheme), "")
  {
    ReplaceAllIsJoinOfSplit(url, BrokerScheme, "");
  }

  /**
   * "kafka://" overlaps no copy of itself, so an occurrence that starts
   * inside `a + BrokerScheme` before the scheme lies wholly inside `a`.
   */
  lemma SchemeFollowsFreeText(a: string)
    requires Free(a, BrokerScheme)
    ensures forall j :: 0 <= j < |a| ==> !OccursAt(a + BrokerScheme, BrokerScheme, j)
  {
    var p := BrokerScheme;
    var s := a + p;
    forall j | 0 <= j < |a| ensures !OccursAt(s, p, j) {
      if j + |p| <= |a| {
        assert s[j..j + |p|] == a[j..j + |p|];
        assert !OccursAt(a, p, j);
      } else {
        var d := |a| - j;
        var t := if d == 3 then 2 else 0;
        assert s[j + d + t] == p[t];
        MismatchAt(s, p, j, d + t);
      }
    }
  }

  /** The text before a "kafka://" that has none in it is kept, the scheme goes, and the rest is handled alike. */
  lemma {:induction false} StripSchemeAfter(a: string, b: string)
    requires Free(a, BrokerScheme)
    ensures StripScheme(a + BrokerScheme + b) == a + StripScheme(b)
  {
    SchemeFollowsFreeText(a);
    ReplaceAllStep(a, BrokerScheme, b, "");
    var t := ReplaceAll(b, BrokerScheme, "");
    assert a + "" + t == a + t;
  }

  /** A host with no "kafka://" in it still has none once a comma follows it. */
  lemma FreeWithComma(host: string)
    requires Free(host, BrokerScheme)
    ensures Free(host + ",", BrokerScheme)
  {
    var p := BrokerScheme;
    var s := host + ",";
    forall j | 0 <= j <= |s| ensures !OccursAt(s, p, j) {
      if j + |p| <= |host| {
        assert s[j..j + |p|] == host[j..j + |p|];
        assert !OccursAt(host, p, j);
      } else if j + |p| == |s| {
        MismatchAt(s, p, j, |p| - 1);
      }
    }
  }

  /** A Heroku-style broker list: "kafka://" before each host, entries separated by commas. */
  function BrokerList(hosts: seq<string>): (url: string)
    requires |hosts| > 0
  {
    if |hosts| == 1 then BrokerScheme + hosts[0]
    else BrokerScheme + hosts[0] + "," + BrokerList(hosts[1..])
  }

  /** From such a list every scheme goes, not only the first, and nothing else changes. */
  lemma {:induction false} StripSchemeBrokerList(hosts: seq<string>)
    requires |hosts| > 0
    requires forall i :: 0 <= i < |hosts| ==> Free(hosts[i], BrokerScheme)
    ensures StripScheme(BrokerList(hosts)) == Join(hosts, ",")
  {
    var h := hosts[0];
    assert Free(h, BrokerScheme);
    if |hosts| == 1 {
      StripSchemeLeading(h);
    } else {
      var tail := hosts[1..];
      assert forall i :: 0 <= i < |tail| ==> Free(tail[i], BrokerScheme) by {
        forall i | 0 <= i < |tail| ensures Free(tail[i], BrokerScheme) { assert tail[i] == hosts[i + 1]; }
      }
      var rest := BrokerList(tail);
      var rest' := if |tail| == 1 then tail[0] else tail[0] + "," + BrokerList(tail[1..]);
      assert rest == BrokerScheme + rest';
      var x := (h + ",") + rest;
      assert BrokerList(hosts) == BrokerScheme + x;
      StripSchemeLeading(x);
      FreeWithComma(h);
      assert x == (h + ",") + BrokerScheme + rest';
      StripSchemeAfter(h + ",", rest');
      StripSchemeLeading(rest');
      StripSchemeBrokerList(tail);
      assert Join(hosts, ",") == h + "," + Join(tail, ",");
    }
  }

  /**
   * One pass only: removing an inner "kafka://" joins the "kafka" before it
   * and the "://" after it into a new scheme, and that one stays.
   */
  lemma StripSchemeSinglePass(host: string)
    requires Free(host, BrokerScheme)
    ensures StripScheme("kafka" + BrokerScheme + "://" + host) == BrokerScheme + host
  {
    var tail := "://" + host;
    FreeAfterSeparator(host);
    StripSchemeAfter("kafka", tail);
    assert "kafka" + BrokerScheme + "://" + host == "kafka" + BrokerScheme + tail;
    SchemeHalves();
    assert "kafka" + tail == ("kafka" + "://") + host;
  }

  /** "://" shares no character with the start of the scheme, so it adds no occurrence. */
  lemma FreeAfterSeparator(host: string)
    requires Free(host, BrokerScheme)
    ensures Free("://" + host, BrokerScheme)
  {
    var p := BrokerScheme;
    var tail := "://" + host;
    forall j | 0 <= j <= |tail| ensures !OccursAt(tail, p, j) {
      if j < 3 {
        MismatchAt(tail, p, j, 0);
      } else if j + |p| <= |tail| {
        assert tail[j..j + |p|] == host[j - 3..j - 3 + |p|];
        assert !OccursAt(host, p, j - 3);
      }
    }
  }

  lemma SchemeHalves()
    ensures "kafka" + "://" == BrokerScheme
  {
  }
}
