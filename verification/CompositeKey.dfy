/** The `${userId}:${id}` keys of the in-memory stores. */
module CompositeKey {
  function Join(user: string, id: string): string {
    user + ":" + id
  }

  /** Without the separator, as every UUID is. */
  predicate Plain(part: string) {
    ':' !in part
  }

  /** Without a separator in the user part, the text of a key names one pair. */
  lemma JoinIsInjective(user: string, id: string, user': string, id': string)
    requires Plain(user) && Plain(user')
    requires Join(user, id) == Join(user', id')
    ensures user == user' && id == id'
  {
    var key := Join(user, id);
    assert key[|user|] == ':' && key[|user'|] == ':';
    assert forall i :: 0 <= i < |user| ==> key[i] == user[i];
    assert forall i :: 0 <= i < |user'| ==> key[i] == user'[i];
    assert user == key[..|user|] && user' == key[..|user'|];
    assert id == key[|user| + 1..] && id' == key[|user'| + 1..];
  }

  /** So it does without a separator in the other part. */
  lemma JoinIsInjectiveBehind(user: string, id: string, user': string, id': string)
    requires Plain(id) && Plain(id')
    requires Join(user, id) == Join(user', id')
    ensures user == user' && id == id'
  {
    var key, at, at' := Join(user, id), |user|, |user'|;
    assert key[at] == ':' && key[at'] == ':';
    assert forall i :: at < i < |key| ==> key[i] == id[i - at - 1];
    assert forall i :: at' < i < |key| ==> key[i] == id'[i - at' - 1];
    assert at == at';
    assert user == key[..at] && user' == key[..at];
    assert id == key[at + 1..] && id' == key[at + 1..];
  }

  /** Under one user no two ids share a key. */
  lemma JoinKeepsIds(user: string, id: string, id': string)
    requires Join(user, id) == Join(user, id')
    ensures id == id'
  {
    assert id == Join(user, id)[|user| + 1..] && id' == Join(user, id')[|user| + 1..];
  }

  /** With a separator in the user part, two different pairs can share a key. */
  lemma JoinMeetsOnSeparators()
    ensures Join("a:b", "c") == Join("a", "b:c")
  {
    assert Join("a:b", "c") == ['a', ':', 'b', ':', 'c'];
  }
}
