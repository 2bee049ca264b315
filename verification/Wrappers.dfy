/** The optional values used across the project, and facts about maps. */
module Wrappers {
  datatype Option<+T> = None | Some(value: T)

  lemma RemoveOneMore<K, V>(m: map<K, V>, gone: set<K>, k: K)
    ensures m - gone - {k} == m - (gone + {k})
  {
  }
}
