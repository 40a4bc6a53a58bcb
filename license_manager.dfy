/** The data model every license parser fills in, and the "licenses in use"
    report over it (Interfaces/LicenseParser.cs, namespace LicenseManager).

    The two dialect parsers (namespaces LicenseParser and LMUtil) declare their own
    copies of License and LicenseUser with the same fields; the model defines them
    once here and both parser modules import them. */
module LicenseManager {
  import opened DotNet

  /** A point in time in whole seconds since 0001-01-01 00:00:00, so that the value
      of default(DateTime), which a user carries until a timestamp is parsed for
      it, is 0. */
  type Time = int

  const DefaultTime: Time := 0

  /** One holder of seats of a License. */
  datatype LicenseUser = LicenseUser(userName: string, licensesInUse: Int32, dateOpened: Time)

  /** One product: the seats it offers and its current holders, keyed by user name. */
  datatype License = License(softwareName: string, licensesAvailable: Int32, users: map<string, LicenseUser>)

  /** Every parse pass ends either normally or with the exception it raised; in the
      second case `info` is the dictionary as the pass left it when it threw. */
  datatype Outcome<E> = Done(info: map<string, License>) | Failed(error: E, info: map<string, License>)

  /** new License(SoftwareName) */
  function NewLicense(softwareName: string): (l: License)
    ensures l.softwareName == softwareName && l.licensesAvailable == 0 && l.users == map[]
  {
    License(softwareName, 0, map[])
  }

  /** new License(SoftwareName, LicensesAvailable) */
  function NewLicenseWithSeats(softwareName: string, licensesAvailable: Int32): (l: License)
    ensures l.softwareName == softwareName && l.licensesAvailable == licensesAvailable
    ensures l.users == map[]
  {
    License(softwareName, licensesAvailable, map[])
  }

  /** new LicenseUser(UserName) */
  function NewLicenseUser(userName: string): (u: LicenseUser)
    ensures u.userName == userName && u.licensesInUse == 1 && u.dateOpened == DefaultTime
  {
    LicenseUser(userName, 1, DefaultTime)
  }

  const NoLicensesInUse: string := "No licenses in use."

  /** `(int)timeDiff.TotalMinutes`: the minutes between dateOpened and now,
      truncated toward zero. */
  function MinutesUsed(dateOpened: Time, now: Time): int {
    Quot(now - dateOpened, 60)
  }

  /** Hours and minutes of a number of minutes, as `minutes / 60` and
      `minutes % 60` compute them in C#. */
  function HoursAndMinutes(minutes: int): (hm: (int, int))
    ensures hm.0 * 60 + hm.1 == minutes
    ensures minutes >= 0 ==> hm.0 >= 0 && 0 <= hm.1 < 60
    ensures minutes < 0 ==> hm.0 <= 0 && -60 < hm.1 <= 0
  {
    QuotRem(minutes, 60);
    (Quot(minutes, 60), Rem(minutes, 60))
  }

  /** The report line for one holder: `"<user> [<h>h <m>m]"`. */
  function UsageEntry(userKey: string, user: LicenseUser, now: Time): string {
    var hm := HoursAndMinutes(MinutesUsed(user.dateOpened, now));
    userKey + " [" + IntToString(hm.0) + "h " + IntToString(hm.1) + "m]"
  }

  /** A report line names the holder and gives the elapsed time as hours and
      minutes that add up to the truncated elapsed minutes. */
  lemma UsageEntryShape(userKey: string, user: LicenseUser, now: Time)
    ensures var t := MinutesUsed(user.dateOpened, now);
            exists h: int, m: int ::
              h * 60 + m == t && (t >= 0 ==> 0 <= m < 60) &&
              UsageEntry(userKey, user, now) == userKey + " [" + IntToString(h) + "h " + IntToString(m) + "m]"
  {
    var hm := HoursAndMinutes(MinutesUsed(user.dateOpened, now));
    var h, m := hm.0, hm.1;
    assert h * 60 + m == MinutesUsed(user.dateOpened, now);
    assert UsageEntry(userKey, user, now) == userKey + " [" + IntToString(h) + "h " + IntToString(m) + "m]";
  }

  /** userList is what LicensesInUse(softwareName) returns for licenseInfo at time
      now, with `order` the order in which the dictionary enumerated the holders:
      the single placeholder when the product is unknown or has no holders, and
      otherwise one entry per holder, every holder exactly once. */
  ghost predicate IsUsageReport(licenseInfo: map<string, License>, softwareName: string, now: Time,
                                userList: seq<string>, order: seq<string>)
  {
    if softwareName !in licenseInfo || licenseInfo[softwareName].users == map[] then
      userList == [NoLicensesInUse] && order == []
    else
      var users := licenseInfo[softwareName].users;
      |userList| == |order| == |users| &&
      (forall k :: k in users <==> k in order) &&
      (forall i, j :: 0 <= i < j < |order| ==> order[i] != order[j]) &&
      (forall i :: 0 <= i < |order| ==> order[i] in users && userList[i] == UsageEntry(order[i], users[order[i]], now))
  }

  /** The body shared by the three LicensesInUse methods: a walk over the user
      dictionary that appends one report line per holder. */
  method UsageReport(licenseInfo: map<string, License>, softwareName: string, now: Time)
    returns (userList: seq<string>, ghost order: seq<string>)
    ensures IsUsageReport(licenseInfo, softwareName, now, userList, order)
    ensures |userList| >= 1
  {
    if softwareName !in licenseInfo || |licenseInfo[softwareName].users| == 0 {
      return [NoLicensesInUse], [];
    }
    var users := licenseInfo[softwareName].users;
    var remaining := users.Keys;
    userList, order := [], [];
    while remaining != {}
      invariant remaining <= users.Keys
      invariant forall k :: k in users <==> k in remaining || k in order
      invariant forall k :: k in order ==> k !in remaining
      invariant forall i, j :: 0 <= i < j < |order| ==> order[i] != order[j]
      invariant |userList| == |order| == |users| - |remaining|
      invariant forall i :: 0 <= i < |order| ==> order[i] in users && userList[i] == UsageEntry(order[i], users[order[i]], now)
      decreases remaining
    {
      var userKey :| userKey in remaining;
      AppendHolder(users, now, userList, order, userKey);
      userList := userList + [UsageEntry(userKey, users[userKey], now)];
      order := order + [userKey];
      remaining := remaining - {userKey};
    }
  }

  /** Appending a holder not yet listed keeps the report's entries in step with
      the enumeration order, and that order free of repeats. */
  lemma AppendHolder(users: map<string, LicenseUser>, now: Time, userList: seq<string>, order: seq<string>,
                     userKey: string)
    requires userKey in users && userKey !in order && |userList| == |order|
    requires forall i, j :: 0 <= i < j < |order| ==> order[i] != order[j]
    requires forall i :: 0 <= i < |order| ==> order[i] in users && userList[i] == UsageEntry(order[i], users[order[i]], now)
    ensures var order' := order + [userKey];
            var userList' := userList + [UsageEntry(userKey, users[userKey], now)];
            (forall i, j :: 0 <= i < j < |order'| ==> order'[i] != order'[j]) &&
            (forall i :: 0 <= i < |order'| ==> order'[i] in users && userList'[i] == UsageEntry(order'[i], users[order'[i]], now))
  {
  }

  /** The base parser, which the dialect parsers replace: a dictionary from product
      name to License and the report over it. */
  class LicenseParser {
    var licenseInfo: map<string, License>

    constructor ()
      ensures licenseInfo == map[]
    {
      licenseInfo := map[];
    }

    /** The base class's virtual ParseLicenses does nothing. */
    method ParseLicenses()
      ensures licenseInfo == old(licenseInfo)
    {
    }

    /** The holders of softwareName with the time each has held it; the method
        changes no state, so licenseInfo and every License in it are left as they
        were. */
    method LicensesInUse(softwareName: string, now: Time) returns (userList: seq<string>, ghost order: seq<string>)
      ensures IsUsageReport(licenseInfo, softwareName, now, userList, order)
      ensures |userList| >= 1
    {
      userList, order := UsageReport(licenseInfo, softwareName, now);
    }
  }
}
