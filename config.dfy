/**
  The application settings the modelled services read. Loading them from the
  environment and from configuration files is not part of this model.
 */
module Config {
  import opened Common

  datatype AppConfig = AppConfig(
    serverPort: nat,
    uploadDir: string,
    environment: string,
    cloudflareAccountId: Option<string>,
    cloudflareApiToken: Option<string>,
    cloudflareImagesEndpoint: string,
    mediaDomain: string,
    sharepointTenantId: Option<string>,
    sharepointClientId: Option<string>,
    sharepointClientSecret: Option<string>,
    sharepointSiteId: Option<string>,
    sharepointDriveId: Option<string>,
    backupEnabled: bool,
    backupRetentionDays: nat)

  /** The settings the integration tests build their services with. */
  const TestConfig: AppConfig := AppConfig(
    3001, "test_uploads", "test", None, None, "https://api.cloudflare.com/client/v4/accounts",
    "media.test.com", None, None, None, None, None, false, 30)
}
