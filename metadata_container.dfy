/** A record's string-to-string metadata (`types.MetadataContainer`). */
module Metadata {

  class MetadataContainer {
    var metadata: map<string, string>

    /** `NewMetadataContainer()`: an empty map. */
    constructor ()
      ensures metadata == map[]
    {
      metadata := map[];
    }

    /** Inserts or overwrites one entry; every other entry stays as it was. */
    method Set(key: string, value: string)
      modifies this
      ensures metadata == old(metadata)[key := value]
      ensures forall k :: k != key ==> (k in metadata <==> k in old(metadata))
      ensures forall k :: k != key && k in metadata ==> metadata[k] == old(metadata)[k]
    {
      metadata := metadata[key := value];
    }

    /** Go's two-valued map read: the stored value and `true`, or `""` and `false`. */
    method Get(key: string) returns (value: string, ok: bool)
      ensures ok <==> key in metadata
      ensures ok ==> value == metadata[key]
      ensures !ok ==> value == ""
    {
      ok := key in metadata;
      value := if ok then metadata[key] else "";
    }

    /** Removes one entry if present; deleting an absent key changes nothing and is not an error. */
    method Delete(key: string)
      modifies this
      ensures metadata == old(metadata) - {key}
      ensures key !in old(metadata) ==> metadata == old(metadata)
    {
      metadata := metadata - {key};
    }

    method GetAll() returns (all: map<string, string>)
      ensures all == metadata
    {
      all := metadata;
    }
  }
}
