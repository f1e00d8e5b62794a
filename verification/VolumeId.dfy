/** The printed volume id, shareID#accessPointID, and the function that takes it apart again. */
module VolumeId {
  import opened Text

  function Printed(share: string, accessPoint: string): string {
    share + "#" + accessPoint
  }

  /** getTokens: split at '#', or at ':' (the old format) if there is none. */
  function GetTokens(id: string): (tokens: seq<string>)
    ensures tokens != []
  {
    if Contains(id, "#") then Split(id, '#') else Split(id, ':')
  }

  /** The share that NodeUnpublishVolume derives from the id. */
  function ShareOf(id: string): string {
    GetTokens(id)[0]
  }

  lemma HashInside(share: string, accessPoint: string)
    ensures Contains(Printed(share, accessPoint), "#")
  {
    var id := Printed(share, accessPoint);
    assert id[|share|..|share| + 1] == "#";
    ContainsAt(id, |share|, "#");
  }

  /** A ':' in either part does no harm: the old format is only tried when there is no '#'. */
  lemma TokensExactly(share: string, accessPoint: string)
    ensures GetTokens(Printed(share, accessPoint)) == [share, accessPoint] <==> '#' !in share && '#' !in accessPoint
  {
    var id := Printed(share, accessPoint);
    HashInside(share, accessPoint);
    assert Join([accessPoint], '#') == accessPoint;
    assert Join([share, accessPoint], '#') == id;
    if '#' !in share && '#' !in accessPoint {
      JoinThenSplit([share, accessPoint], '#');
    }
    if GetTokens(id) == [share, accessPoint] {
      SplitThenJoin(id, '#');
      assert GetTokens(id)[0] == share && GetTokens(id)[1] == accessPoint;
    }
  }

  /** Unpublish finds the share that publish used exactly when its id holds no '#'. */
  lemma ShareExactly(share: string, accessPoint: string)
    ensures ShareOf(Printed(share, accessPoint)) == share <==> '#' !in share
  {
    var id := Printed(share, accessPoint);
    HashInside(share, accessPoint);
    SplitThenJoin(id, '#');
    if '#' !in share {
      SplitPrefix(share, "#" + accessPoint, '#');
      assert share + ("#" + accessPoint) == id && share + "" == share;
    }
  }

  /** Two printed ids are equal only for the same share and access point. */
  lemma PrintedIsInjective(share: string, accessPoint: string, share': string, accessPoint': string)
    requires '#' !in share && '#' !in share' && Printed(share, accessPoint) == Printed(share', accessPoint')
    ensures share == share' && accessPoint == accessPoint'
  {
    ShareExactly(share, accessPoint);
    ShareExactly(share', accessPoint');
    var id := Printed(share, accessPoint);
    assert accessPoint == id[|share| + 1..];
    assert accessPoint' == id[|share'| + 1..];
  }

  /** The old format, shareID:accessPointID. */
  function OldPrinted(share: string, accessPoint: string): string {
    share + ":" + accessPoint
  }

  lemma NoHash(share: string, accessPoint: string)
    requires '#' !in share && '#' !in accessPoint
    ensures !Contains(OldPrinted(share, accessPoint), "#")
  {
    NoChar(OldPrinted(share, accessPoint), '#');
  }

  /** An old id without '#' is taken apart at its colon, exactly when there is no other. */
  lemma OldTokensExactly(share: string, accessPoint: string)
    requires '#' !in share && '#' !in accessPoint
    ensures GetTokens(share + ":" + accessPoint) == [share, accessPoint] <==> ':' !in share && ':' !in accessPoint
  {
    var id := OldPrinted(share, accessPoint);
    NoHash(share, accessPoint);
    assert Join([accessPoint], ':') == accessPoint;
    assert Join([share, accessPoint], ':') == id;
    if ':' !in share && ':' !in accessPoint {
      JoinThenSplit([share, accessPoint], ':');
    }
    if GetTokens(id) == [share, accessPoint] {
      SplitThenJoin(id, ':');
      assert GetTokens(id)[0] == share && GetTokens(id)[1] == accessPoint;
    }
  }

  /** The share of an old id is what stands before its first colon. */
  lemma OldShareExactly(share: string, accessPoint: string)
    requires '#' !in share && '#' !in accessPoint
    ensures ShareOf(share + ":" + accessPoint) == share <==> ':' !in share
  {
    var id := OldPrinted(share, accessPoint);
    NoHash(share, accessPoint);
    SplitThenJoin(id, ':');
    if ':' !in share {
      SplitPrefix(share, ":" + accessPoint, ':');
      assert share + (":" + accessPoint) == id && share + "" == share;
    }
  }
}
