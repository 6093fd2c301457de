/** The user record of the room-info API and its lookup by identifier. */
module Users {
  import opened Uuids

  datatype User = User(UserID: Uuid, UserName: string)

  /**
   * `user.Index(s)`: the first position of `s` holding a user with the same
   * identifier, or -1 when there is none.
   */
  method Index(user: User, s: seq<User>) returns (r: int)
    ensures -1 <= r < |s|
    ensures r == -1 <==> forall k :: 0 <= k < |s| ==> s[k].UserID != user.UserID
    ensures r >= 0 ==> s[r].UserID == user.UserID
    ensures r >= 0 ==> forall k :: 0 <= k < r ==> s[k].UserID != user.UserID
  {
    var i := 0;
    while i < |s|
      invariant 0 <= i <= |s|
      invariant forall k :: 0 <= k < i ==> s[k].UserID != user.UserID
    {
      if user.UserID == s[i].UserID {
        return i;
      }
      i := i + 1;
    }
    return -1;
  }
}

/** The entry profile of a client that is about to join a room, and its lookup. */
module RoomEntry {
  import opened Uuids

  /** `name`, user id `uid`, room id `rid` and session id `sid`. */
  datatype UserProfile = UserProfile(name: string, uid: Uuid, rid: Uuid, sid: Uuid)

  /**
   * `userProfile.Index(s)`: the first position of `s` holding a profile of
   * the same user, or -1 when there is none.
   */
  method Index(userProfile: UserProfile, s: seq<UserProfile>) returns (r: int)
    ensures -1 <= r < |s|
    ensures r == -1 <==> forall k :: 0 <= k < |s| ==> s[k].uid != userProfile.uid
    ensures r >= 0 ==> s[r].uid == userProfile.uid
    ensures r >= 0 ==> forall k :: 0 <= k < r ==> s[k].uid != userProfile.uid
  {
    var i := 0;
    while i < |s|
      invariant 0 <= i <= |s|
      invariant forall k :: 0 <= k < i ==> s[k].uid != userProfile.uid
    {
      if userProfile.uid == s[i].uid {
        return i;
      }
      i := i + 1;
    }
    return -1;
  }
}
