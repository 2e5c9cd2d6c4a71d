/** The configuration manager: requests take snapshots, a reload publishes a new configuration. */
module Config {

  /** The part of the configuration the rate limiter reads. */
  datatype Settings = Settings(rateLimit: nat)

  class Manager {
    var settings: Settings

    constructor (settings: Settings)
      ensures this.settings == settings
    {
      this.settings := settings;
    }

    method Get() returns (snapshot: Settings)
      ensures snapshot == settings
    {
      snapshot := settings;
    }

    method Update(settings: Settings)
      modifies this
      ensures this.settings == settings
    {
      this.settings := settings;
    }
  }
}
