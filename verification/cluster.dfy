/**
 * Matching a taste profile to a cluster: the lookup key built from the
 * seven axis values, its lookup in the match map read from the seed TSV,
 * and the cluster record found for the matched id.
 */
module ClusterService {
  import opened Wrappers
  import opened Text
  import FileParser

  /** The axes in the order the key lists them. */
  const AxisOrder: seq<string> := ["boldness", "acidity", "richness", "experimental", "spiciness", "sweetness", "umami"]

  /** A profile as the request body carries it: a value per field, possibly `null`, possibly missing. */
  type Profile = map<string, Option<int>>

  /** `profile[key] ?? 0`. */
  function AxisValue(profile: Profile, key: string): int {
    if key in profile && profile[key].Some? then profile[key].value else 0
  }

  /** The printed axis values, in axis order. */
  function AxisStrings(profile: Profile): (parts: seq<string>)
    ensures |parts| == |AxisOrder|
    ensures forall i :: 0 <= i < |parts| ==> parts[i] == IntToString(AxisValue(profile, AxisOrder[i]))
  {
    seq(|AxisOrder|, i requires 0 <= i < |AxisOrder| => IntToString(AxisValue(profile, AxisOrder[i])))
  }

  /** A printed integer holds digits and perhaps a leading '-', never a comma or whitespace. */
  lemma IntToStringShape(n: int)
    ensures ',' !in IntToString(n) && '\t' !in IntToString(n)
    ensures IntToString(n) != "" && !IsWhitespace(IntToString(n)[0])
    ensures !IsWhitespace(IntToString(n)[|IntToString(n)| - 1])
  {
    var d := NatToString(if n < 0 then -n else n);
    assert forall i :: 0 <= i < |d| ==> IsDigit(d[i]);
    if n < 0 {
      var s := "-" + d;
      assert forall i :: 1 <= i < |s| ==> s[i] == d[i - 1];
    }
  }

  /**
   * The lookup key: the seven axis values, `null` or missing read as 0,
   * joined by ','. Splitting it on ',' gives seven parts that `parseInt`
   * reads back as the axis values.
   */
  function ClusterKey(profile: Profile): (key: string)
    ensures |Split(key, ',')| == |AxisOrder|
    ensures forall i :: 0 <= i < |AxisOrder| ==> ParseInt(Split(key, ',')[i]) == Some(AxisValue(profile, AxisOrder[i]))
  {
    var parts := AxisStrings(profile);
    forall i | 0 <= i < |parts|
      ensures ',' !in parts[i] && ParseInt(parts[i]) == Some(AxisValue(profile, AxisOrder[i]))
    {
      IntToStringShape(AxisValue(profile, AxisOrder[i]));
      ParseIntToString(AxisValue(profile, AxisOrder[i]));
    }
    SplitJoin(parts, ',');
    Join(parts, ',')
  }

  /** Two profiles share a key exactly when they agree on every axis (reading `null` as 0). */
  lemma ClusterKeyInjective(p: Profile, q: Profile)
    ensures ClusterKey(p) == ClusterKey(q) <==> forall i :: 0 <= i < |AxisOrder| ==> AxisValue(p, AxisOrder[i]) == AxisValue(q, AxisOrder[i])
  {
    if forall i :: 0 <= i < |AxisOrder| ==> AxisValue(p, AxisOrder[i]) == AxisValue(q, AxisOrder[i]) {
      assert AxisStrings(p) == AxisStrings(q);
    }
  }

  /** A `null` axis counts as 0, and fields outside the seven axes are ignored. */
  lemma NullAxisIsZero(p: Profile, k: string, v: Option<int>)
    ensures ClusterKey(p[k := None]) == ClusterKey(p[k := Some(0)])
    ensures k !in AxisOrder ==> ClusterKey(p[k := v]) == ClusterKey(p)
  {
    assert AxisStrings(p[k := None]) == AxisStrings(p[k := Some(0)]);
    if k !in AxisOrder {
      assert AxisStrings(p[k := v]) == AxisStrings(p);
    }
  }

  /**
   * A match-file line written as `key <TAB> id` for a profile's key is read
   * back as that entry.
   */
  lemma MatchLineReadsBack(p: Profile, id: int)
    ensures FileParser.LineEntry(ClusterKey(p) + "\t" + IntToString(id)) == Some((ClusterKey(p), id))
  {
    var parts := AxisStrings(p);
    var key := ClusterKey(p);
    IntToStringShape(AxisValue(p, AxisOrder[0]));
    IntToStringShape(AxisValue(p, AxisOrder[6]));
    assert key == parts[0] + [','] + Join(parts[1..], ',');
    assert key[0] == parts[0][0];
    JoinEndsWithLast(parts, ',');
    assert '\t' !in key by {
      forall i | 0 <= i < |parts|
        ensures '\t' !in parts[i]
      {
        IntToStringShape(AxisValue(p, AxisOrder[i]));
      }
      JoinAvoids(parts, ',', '\t');
    }
    FileParser.LineEntryReadsWrittenLine(key, id);
  }

  /** A join ends with the last part. */
  lemma {:induction false} JoinEndsWithLast(parts: seq<string>, sep: char)
    requires |parts| >= 1 && parts[|parts| - 1] != ""
    ensures var s := Join(parts, sep); s != "" && s[|s| - 1] == parts[|parts| - 1][|parts[|parts| - 1]| - 1]
  {
    if |parts| > 1 {
      JoinEndsWithLast(parts[1..], sep);
    }
  }

  /** A join of parts free of `c` is free of `c`, unless `c` is the separator. */
  lemma {:induction false} JoinAvoids(parts: seq<string>, sep: char, c: char)
    requires c != sep
    requires forall i :: 0 <= i < |parts| ==> c !in parts[i]
    ensures c !in Join(parts, sep)
  {
    if |parts| > 1 {
      JoinAvoids(parts[1..], sep, c);
    }
  }

  /** One row of the clusters table. */
  datatype ClusterRow<C> = ClusterRow(clusterId: string, info: C)

  const NotFoundMessage := "Cluster not found for this profile"
  const InfoMissingMessage := "Cluster info not found"

  /** `SELECT * FROM clusters WHERE cluster_id = ?`, first row. */
  function ClusterById<C>(clusters: seq<ClusterRow<C>>, id: string): (r: Option<C>)
    ensures r.None? <==> forall i :: 0 <= i < |clusters| ==> clusters[i].clusterId != id
    ensures r.Some? ==> exists i :: 0 <= i < |clusters| && clusters[i].clusterId == id && clusters[i].info == r.value
  {
    if clusters == [] then None
    else if clusters[0].clusterId == id then Some(clusters[0].info)
    else ClusterById(clusters[1..], id)
  }

  predicate HasRow<C>(clusters: seq<ClusterRow<C>>, id: string) {
    exists i :: 0 <= i < |clusters| && clusters[i].clusterId == id
  }

  /**
   * `matchCluster`: the key must be in the match map, and the id it maps to
   * must have a cluster row; each failure has its own message.
   */
  function MatchCluster<C>(profile: Profile, matchMap: map<string, int>, clusters: seq<ClusterRow<C>>): (r: Result<C, string>)
    ensures ClusterKey(profile) !in matchMap <==> r == Failure(NotFoundMessage)
    ensures r.Failure? ==> r.error in {NotFoundMessage, InfoMissingMessage}
    ensures r.Success? <==> (ClusterKey(profile) in matchMap && HasRow(clusters, IntToString(matchMap[ClusterKey(profile)])))
  {
    var key := ClusterKey(profile);
    if key !in matchMap then Failure(NotFoundMessage)
    else
      match ClusterById(clusters, IntToString(matchMap[key]))
      case None => Failure(InfoMissingMessage)
      case Some(c) => Success(c)
  }

  /**
   * The cluster found is the first row carrying the id the key maps to, and
   * profiles that agree on every axis match the same cluster.
   */
  lemma MatchClusterFindsFirstRow<C>(p: Profile, q: Profile, matchMap: map<string, int>, clusters: seq<ClusterRow<C>>, i: nat)
    requires ClusterKey(p) in matchMap
    requires i < |clusters| && clusters[i].clusterId == IntToString(matchMap[ClusterKey(p)])
    requires forall j :: 0 <= j < i ==> clusters[j].clusterId != clusters[i].clusterId
    requires forall k :: 0 <= k < |AxisOrder| ==> AxisValue(p, AxisOrder[k]) == AxisValue(q, AxisOrder[k])
    ensures MatchCluster(p, matchMap, clusters) == Success(clusters[i].info)
    ensures MatchCluster(q, matchMap, clusters) == MatchCluster(p, matchMap, clusters)
  {
    ClusterKeyInjective(p, q);
    FirstRowWins(clusters, i);
  }

  lemma {:induction false} FirstRowWins<C>(clusters: seq<ClusterRow<C>>, i: nat)
    requires i < |clusters|
    requires forall j :: 0 <= j < i ==> clusters[j].clusterId != clusters[i].clusterId
    ensures ClusterById(clusters, clusters[i].clusterId) == Some(clusters[i].info)
  {
    if i > 0 {
      FirstRowWins(clusters[1..], i - 1);
    }
  }
}

/**
 * The cluster endpoints: `POST /api/match-cluster` checks the body, runs
 * the match and maps its failures to statuses; `GET /api/clusters` lists
 * the clusters table.
 */
module ClusterController {
  import opened Wrappers
  import opened Text
  import opened Http
  import opened ClusterService

  /** The `profile` field of the request body. */
  datatype ProfileField = Missing | NotAnObject | Object(profile: Profile)

  datatype ReplyBody<C> = ClusterBody(cluster: C) | ErrorBody(error: string)

  datatype Reply<C> = Reply(status: Status, body: ReplyBody<C>)

  /**
   * The reply. `matchMap` is the match file as read, `None` when reading it
   * throws; `clusters` is the clusters table as the lookup sees it, `None`
   * when the lookup throws. The lookup runs only once the profile's key is
   * in the match map, so an unknown key is a 404 whatever the lookup would
   * have done.
   */
  function MatchClusterReply<C>(field: ProfileField, matchMap: Option<map<string, int>>,
                                clusters: Option<seq<ClusterRow<C>>>): (r: Reply<C>)
    ensures !field.Object? <==> r == Reply(BadRequest, ErrorBody("Invalid profile data"))
    ensures field.Object? && matchMap.None? ==> r == Reply(ServerError, ErrorBody("Failed to match cluster"))
    ensures field.Object? && matchMap.Some? && ClusterKey(field.profile) !in matchMap.value ==>
      r == Reply(NotFound, ErrorBody(NotFoundMessage))
    ensures field.Object? && matchMap.Some? && ClusterKey(field.profile) in matchMap.value && clusters.None? ==>
      r == Reply(ServerError, ErrorBody("Failed to match cluster"))
    ensures field.Object? && matchMap.Some? && clusters.Some? ==>
      match MatchCluster(field.profile, matchMap.value, clusters.value)
      case Success(c) => r == Reply(Ok, ClusterBody(c))
      case Failure(message) =>
        if message == NotFoundMessage then r == Reply(NotFound, ErrorBody(message))
        else r == Reply(ServerError, ErrorBody("Failed to match cluster"))
  {
    match field
    case Object(profile) =>
      (match matchMap
       case None => Reply(ServerError, ErrorBody("Failed to match cluster"))
       case Some(mm) =>
         if ClusterKey(profile) !in mm then Reply(NotFound, ErrorBody(NotFoundMessage))
         else
           match clusters
           case None => Reply(ServerError, ErrorBody("Failed to match cluster"))
           case Some(rows) =>
             match MatchCluster(profile, mm, rows)
             case Success(c) => Reply(Ok, ClusterBody(c))
             case Failure(message) =>
               if message == NotFoundMessage then Reply(NotFound, ErrorBody(message))
               else Reply(ServerError, ErrorBody("Failed to match cluster")))
    case _ => Reply(BadRequest, ErrorBody("Invalid profile data"))
  }

  /**
   * Once the match map is read, 404 means exactly that no line of the match
   * file names the profile's key, and 500 that the key is named but the
   * lookup failed or found no cluster row for the matched id.
   */
  lemma StatusExplainsFailure<C>(profile: Profile, matchMap: map<string, int>, clusters: Option<seq<ClusterRow<C>>>)
    ensures var r := MatchClusterReply(Object(profile), Some(matchMap), clusters);
      && (r.status == NotFound <==> ClusterKey(profile) !in matchMap)
      && (r.status == ServerError <==>
            ClusterKey(profile) in matchMap
            && (clusters.None? || !HasRow(clusters.value, IntToString(matchMap[ClusterKey(profile)]))))
      && (r.status == Ok || r.status == NotFound || r.status == ServerError)
  {
  }

  /**
   * The lookup as written calls `db.execute`, which the sqlite3 `Database`
   * the server opens does not have, so every lookup throws: the reply is
   * the one for a failed lookup.
   */
  function MatchClusterReplyAsWritten<C>(field: ProfileField, matchMap: Option<map<string, int>>): (r: Reply<C>)
    ensures r.status != Ok
  {
    MatchClusterReply(field, matchMap, None)
  }

  /**
   * As written no profile is ever matched: a profile whose key is in the
   * match map gets a 500 even when the clusters table holds the matched
   * row, where the working lookup answers that row.
   */
  lemma AsWrittenNeverMatches<C>(profile: Profile, matchMap: map<string, int>, clusters: seq<ClusterRow<C>>, i: nat)
    requires ClusterKey(profile) in matchMap
    requires i < |clusters| && clusters[i].clusterId == IntToString(matchMap[ClusterKey(profile)])
    requires forall j :: 0 <= j < i ==> clusters[j].clusterId != clusters[i].clusterId
    ensures MatchClusterReplyAsWritten<C>(Object(profile), Some(matchMap)) == Reply(ServerError, ErrorBody("Failed to match cluster"))
    ensures MatchClusterReply(Object(profile), Some(matchMap), Some(clusters)) == Reply(Ok, ClusterBody(clusters[i].info))
  {
    MatchClusterFindsFirstRow(profile, profile, matchMap, clusters, i);
  }

  /** The body of the cluster listing. */
  datatype ListBody<C> = Clusters(rows: seq<ClusterRow<C>>) | ListError(error: string)

  /**
   * `GET /api/clusters`: every row of the clusters table, or a 500 when reading
   * the table throws. As written the read calls `db.execute` too, so it
   * always throws: the as-written reply is `AllClustersReply(None)`.
   */
  function AllClustersReply<C>(clusters: Option<seq<ClusterRow<C>>>): (r: (Status, ListBody<C>))
    ensures r.0 == Ok <==> clusters.Some?
    ensures clusters.Some? ==> r.1 == Clusters(clusters.value)
    ensures clusters.None? ==> r == (ServerError, ListError("Failed to load clusters"))
  {
    match clusters
    case Some(rows) => (Ok, Clusters(rows))
    case None => (ServerError, ListError("Failed to load clusters"))
  }
}
